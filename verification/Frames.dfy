/** Frames as values: a display image is one column per x, origin bottom left. */
module Frames {
  import opened Columns

  type Frame = seq<Column>

  /** The bit of a column word that holds row `y`. */
  function Offset(y: nat): (offset: nat)
    requires y < 256
    ensures offset < HEIGHT
  {
    if y >= 8 then 15 - y % 8 else 7 - y
  }

  /** The source's bounds test: row 16 is let through. */
  predicate InBounds(f: Frame, x: nat, y: nat) {
    x < |f| && y <= 16
  }

  function Pixel(f: Frame, x: nat, y: nat): bool {
    InBounds(f, x, y) && Offset(y) in f[x]
  }

  function WithPixel(f: Frame, x: nat, y: nat, value: bool): (g: Frame)
    requires InBounds(f, x, y)
    ensures |g| == |f|
  {
    f[x := if value then f[x] + {Offset(y)} else f[x] - {Offset(y)}]
  }

  /** The row whose dot is bit `i`. */
  function RowOf(i: nat): (y: nat)
    requires i < HEIGHT
    ensures y < HEIGHT && Offset(y) == i
  {
    if i >= 8 then 15 - (i - 8) else 7 - i
  }

  /** Each of the two bytes of a word holds eight rows in ascending order, the lowest in its most significant bit. */
  lemma PixelIsBit(f: Frame, x: nat, byte: nat, row: nat)
    requires byte < 2 && row < 8 && x < |f|
    ensures Offset(8 * byte + row) == 8 * byte + (7 - row)
    ensures Pixel(f, x, 8 * byte + row) <==> 8 * byte + (7 - row) in f[x]
  {
  }

  /** Rows 0..15 and bits 0..15 correspond one to one. */
  lemma OffsetBijection(i: nat, y: nat)
    requires i < HEIGHT && y < HEIGHT
    ensures Offset(y) == i <==> y == RowOf(i)
  {
  }

  /** Setting a pixel changes that cell of the width x 16 grid and no other. */
  lemma SetPixelChangesOneCell(f: Frame, x: nat, y: nat, value: bool, x': nat, y': nat)
    requires x < |f| && x' < |f| && y < HEIGHT && y' < HEIGHT
    ensures Pixel(WithPixel(f, x, y, value), x', y') == if (x', y') == (x, y) then value else Pixel(f, x', y')
  {
    assert y != y' ==> Offset(y) != Offset(y');
  }

  /** Row 16 passes the bounds test and is the same cell as row 8. */
  lemma Row16AliasesRow8(f: Frame, x: nat, value: bool)
    requires x < |f|
    ensures Pixel(f, x, 16) == Pixel(f, x, 8)
    ensures WithPixel(f, x, 16, value) == WithPixel(f, x, 8, value)
  {
  }

  /** A frame is nothing but its grid of pixels. */
  lemma FrameIsItsPixels(f: Frame, g: Frame)
    requires |f| == |g|
    requires forall x: nat, y: nat :: x < |f| && y < HEIGHT ==> Pixel(f, x, y) == Pixel(g, x, y)
    ensures f == g
  {
    forall x: nat | x < |f|
      ensures f[x] == g[x]
    {
      forall i: nat | i < HEIGHT
        ensures i in f[x] <==> i in g[x]
      {
        assert Pixel(f, x, RowOf(i)) == Pixel(g, x, RowOf(i));
      }
    }
  }

  /** The frame after the first `n` cells of row `y` were overwritten from `row`. */
  function WithRow(f: Frame, y: nat, row: seq<bool>, n: nat): (g: Frame)
    requires y < HEIGHT && n <= |f| && n <= |row|
    ensures |g| == |f|
  {
    if n == 0 then f else WithPixel(WithRow(f, y, row, n - 1), n - 1, y, row[n - 1])
  }

  /** Overwriting a row changes the cells of that row and no other row. */
  lemma {:induction false} WithRowChangesOneRow(f: Frame, y: nat, row: seq<bool>, n: nat, x: nat, y': nat)
    requires y < HEIGHT && y' < HEIGHT && x < |f| && n <= |f| && n <= |row|
    ensures Pixel(WithRow(f, y, row, n), x, y') == if y' == y && x < n then row[x] else Pixel(f, x, y')
  {
    if n > 0 {
      WithRowChangesOneRow(f, y, row, n - 1, x, y');
      SetPixelChangesOneCell(WithRow(f, y, row, n - 1), n - 1, y, row[n - 1], x, y');
    }
  }

  /** Dots that differ between `a` and `b` in the `n` columns from `start` on. */
  function Difference(a: Frame, b: Frame, start: nat, n: nat): nat
    requires start + n <= |a| && start + n <= |b|
  {
    if n == 0 then 0 else Difference(a, b, start, n - 1) + Flips(a[start + n - 1], b[start + n - 1])
  }

  function Distance(a: Frame, b: Frame): nat
    requires |a| == |b|
  {
    Difference(a, b, 0, |a|)
  }

  /** The two frames agree on the `n` columns from `start` on. */
  predicate SameOn(a: Frame, b: Frame, start: nat, n: nat)
    requires start + n <= |a| && start + n <= |b|
  {
    forall x :: start <= x < start + n ==> a[x] == b[x]
  }

  lemma {:induction false} DifferenceZero(a: Frame, b: Frame, start: nat, n: nat)
    requires start + n <= |a| && start + n <= |b|
    ensures Difference(a, b, start, n) == 0 <==> SameOn(a, b, start, n)
  {
    if n > 0 {
      DifferenceZero(a, b, start, n - 1);
      FlipsZero(a[start + n - 1], b[start + n - 1]);
    }
  }

  lemma DistanceZero(a: Frame, b: Frame)
    requires |a| == |b|
    ensures Distance(a, b) == 0 <==> a == b
  {
    DifferenceZero(a, b, 0, |a|);
  }

  lemma {:induction false} DifferenceSplits(a: Frame, b: Frame, start: nat, m: nat, n: nat)
    requires start + m + n <= |a| && start + m + n <= |b|
    ensures Difference(a, b, start, m + n) == Difference(a, b, start, m) + Difference(a, b, start + m, n)
  {
    if n > 0 {
      DifferenceSplits(a, b, start, m, n - 1);
    }
  }

  lemma {:induction false} DifferenceTriangle(a: Frame, b: Frame, c: Frame, n: nat)
    requires |a| == |b| == |c| && n <= |a|
    ensures Difference(a, c, 0, n) <= Difference(a, b, 0, n) + Difference(b, c, 0, n)
  {
    if n > 0 {
      DifferenceTriangle(a, b, c, n - 1);
      FlipsTriangle(a[n - 1], b[n - 1], c[n - 1]);
    }
  }

  lemma {:induction false} DifferenceSymmetric(a: Frame, b: Frame, start: nat, n: nat)
    requires start + n <= |a| && start + n <= |b|
    ensures Difference(a, b, start, n) == Difference(b, a, start, n)
  {
    if n > 0 {
      DifferenceSymmetric(a, b, start, n - 1);
      FlipsSymmetric(a[start + n - 1], b[start + n - 1]);
    }
  }

  // ----- Counting pixels

  /** As many rows as bits. */
  lemma {:induction false} RowsAndBits(bits: set<nat>, rows: set<nat>)
    requires forall i :: i in bits ==> i < HEIGHT && RowOf(i) in rows
    requires forall y :: y in rows ==> y < HEIGHT && Offset(y) in bits
    ensures |bits| == |rows|
    decreases |bits|
  {
    if i :| i in bits {
      forall j | j in bits - {i}
        ensures RowOf(j) in rows - {RowOf(i)}
      {
        OffsetBijection(i, RowOf(j));
      }
      forall y | y in rows - {RowOf(i)}
        ensures Offset(y) in bits - {i}
      {
        OffsetBijection(i, y);
      }
      RowsAndBits(bits - {i}, rows - {RowOf(i)});
    } else {
      assert rows == {};
    }
  }

  function Cells(x: nat, rows: set<nat>): set<(nat, nat)> {
    set y: nat | y in rows :: (x, y)
  }

  lemma {:induction false} PairsSize(x: nat, rows: set<nat>)
    ensures |Cells(x, rows)| == |rows|
    decreases |rows|
  {
    if y :| y in rows {
      PairsSize(x, rows - {y});
      assert Cells(x, rows) == Cells(x, rows - {y}) + {(x, y)};
    } else {
      assert Cells(x, rows) == {};
    }
  }

  /** The pixels at which two frames differ in the `n` columns from `start` on. */
  function DifferingPixels(a: Frame, b: Frame, start: nat, n: nat): set<(nat, nat)> {
    set x: nat, y: nat | start <= x < start + n && y < HEIGHT && Pixel(a, x, y) != Pixel(b, x, y) :: (x, y)
  }

  lemma RowHoldsBit(f: Frame, x: nat, i: nat)
    requires x < |f| && i < HEIGHT
    ensures Pixel(f, x, RowOf(i)) <==> i in f[x]
  {
  }

  lemma BitHoldsRow(f: Frame, x: nat, y: nat)
    requires x < |f| && y < HEIGHT
    ensures RowOf(Offset(y)) == y && (Pixel(f, x, y) <==> Offset(y) in f[x])
  {
  }

  function DifferingRows(a: Frame, b: Frame, x: nat): set<nat> {
    set y: nat | y < HEIGHT && Pixel(a, x, y) != Pixel(b, x, y)
  }

  /** In one column, differing dots and differing bits are the same in number. */
  lemma ColumnRows(a: Frame, b: Frame, x: nat)
    requires x < |a| && x < |b|
    ensures |DifferingRows(a, b, x)| == Flips(a[x], b[x])
  {
    hide Offset, RowOf, Pixel, Differing;
    DifferingIsCardinality(a[x], b[x], HEIGHT);
    var bits, rows := DifferingBits(a[x], b[x], HEIGHT), DifferingRows(a, b, x);
    forall i | i in bits
      ensures i < HEIGHT && RowOf(i) in rows
    {
      RowHoldsBit(a, x, i);
      RowHoldsBit(b, x, i);
    }
    forall y | y in rows
      ensures y < HEIGHT && Offset(y) in bits
    {
      BitHoldsRow(a, x, y);
      BitHoldsRow(b, x, y);
    }
    RowsAndBits(bits, rows);
  }

  lemma NextColumnPixels(a: Frame, b: Frame, start: nat, n: nat)
    ensures |DifferingPixels(a, b, start, n + 1)|
         == |DifferingPixels(a, b, start, n)| + |Cells(start + n, DifferingRows(a, b, start + n))|
  {
    hide Pixel;
    var before, column := DifferingPixels(a, b, start, n), Cells(start + n, DifferingRows(a, b, start + n));
    assert DifferingPixels(a, b, start, n + 1) == before + column;
    assert before !! column;
  }

  /** What compare_partial adds up is the number of pixels at which the two frames differ. */
  lemma {:induction false} DifferenceCountsPixels(a: Frame, b: Frame, start: nat, n: nat)
    requires start + n <= |a| && start + n <= |b|
    ensures Difference(a, b, start, n) == |DifferingPixels(a, b, start, n)|
  {
    hide Offset, Pixel, Flips;
    if n == 0 {
      assert DifferingPixels(a, b, start, 0) == {};
    } else {
      var last := start + n - 1;
      DifferenceCountsPixels(a, b, start, n - 1);
      ColumnRows(a, b, last);
      PairsSize(last, DifferingRows(a, b, last));
      NextColumnPixels(a, b, start, n - 1);
    }
  }

  lemma DistanceCountsPixels(a: Frame, b: Frame)
    requires |a| == |b|
    ensures Distance(a, b) == |set x: nat, y: nat | x < |a| && y < 16 && Pixel(a, x, y) != Pixel(b, x, y) :: (x, y)|
  {
    DifferenceCountsPixels(a, b, 0, |a|);
    assert DifferingPixels(a, b, 0, |a|) == set x: nat, y: nat | x < |a| && y < 16 && Pixel(a, x, y) != Pixel(b, x, y) :: (x, y);
  }
}
