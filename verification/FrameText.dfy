/** The ASCII form of a frame: sixteen lines, top row first, one character per column and a newline each. */
module FrameText {
  import opened Columns
  import opened Frames
  import opened Framebuffers

  /** Where line `k` starts when lines are `width` characters and a newline. */
  function LineStart(width: nat, k: nat): nat {
    if k == 0 then 0 else LineStart(width, k - 1) + width + 1
  }

  lemma {:induction false} LineStartMonotone(width: nat, j: nat, k: nat)
    requires j <= k
    ensures LineStart(width, j) <= LineStart(width, k)
    decreases k
  {
    if j < k {
      LineStartMonotone(width, j, k - 1);
    }
  }

  /** The first `k` lines of the text of a frame. */
  function Text(f: Frame, k: nat): (text: seq<char>)
    requires k <= HEIGHT
    ensures |text| == LineStart(|f|, k)
  {
    if k == 0 then [] else Text(f, k - 1) + LineOf(f, HEIGHT - k) + ['\n']
  }

  /** `text` has a line `k`: long enough, and a newline where the line ends. */
  predicate HasLine(text: seq<char>, width: nat, k: nat) {
    LineStart(width, k + 1) <= |text| && text[LineStart(width, k) + width] == '\n'
  }

  function Line(text: seq<char>, width: nat, k: nat): (line: seq<char>)
    requires LineStart(width, k + 1) <= |text|
    ensures |line| == width
  {
    text[LineStart(width, k)..LineStart(width, k) + width]
  }

  /** How many of the first `n` lines are there, counted up to the first that is not. */
  function GoodLines(text: seq<char>, width: nat, n: nat): (k: nat)
    ensures k <= n && (forall j: nat :: j < k ==> HasLine(text, width, j)) && (k < n ==> !HasLine(text, width, k))
  {
    if n == 0 then 0
    else
      var k := GoodLines(text, width, n - 1);
      if k == n - 1 && HasLine(text, width, k) then n else k
  }

  /** The frame after the first `k` lines of `text` were decoded into the rows from the top. */
  function Painted(f: Frame, text: seq<char>, k: nat): (g: Frame)
    requires k <= HEIGHT && LineStart(|f|, k) <= |text|
    ensures |g| == |f|
  {
    if k == 0 then f
    else WithRow(Painted(f, text, k - 1), HEIGHT - k, Decoded(Line(text, |f|, k - 1)), |f|)
  }

  /** Every pixel of the rows decoded so far is what the text says; the rows below are as before. */
  lemma {:induction false} PaintedPixel(f: Frame, text: seq<char>, k: nat, x: nat, y: nat)
    requires k <= HEIGHT && LineStart(|f|, k) <= |text| && x < |f| && y < HEIGHT
    ensures Pixel(Painted(f, text, k), x, y) ==
            if y < HEIGHT - k then Pixel(f, x, y)
            else (LineStartMonotone(|f|, HEIGHT - y, k); Line(text, |f|, HEIGHT - 1 - y)[x] == 'X')
  {
    if k > 0 {
      PaintedPixel(f, text, k - 1, x, y);
      WithRowChangesOneRow(Painted(f, text, k - 1), HEIGHT - k, Decoded(Line(text, |f|, k - 1)), |f|, x, y);
    }
  }

  lemma LastLine(before: seq<char>, line: seq<char>, width: nat, k: nat)
    requires |before| == LineStart(width, k) && |line| == width
    ensures var text := before + line + ['\n'];
            |text| == LineStart(width, k + 1) && HasLine(text, width, k) && Line(text, width, k) == line
  {
  }

  lemma EarlierLine(before: seq<char>, more: seq<char>, width: nat, j: nat)
    requires HasLine(before, width, j)
    ensures HasLine(before + more, width, j) && Line(before + more, width, j) == Line(before, width, j)
  {
    assert LineStart(width, j) + width < LineStart(width, j + 1);
  }

  lemma {:induction false} TextLine(f: Frame, k: nat, j: nat)
    requires j < k <= HEIGHT
    ensures HasLine(Text(f, k), |f|, j) && Line(Text(f, k), |f|, j) == LineOf(f, HEIGHT - 1 - j)
  {
    hide HasLine, Line, LineOf, LineStart;
    var before, line := Text(f, k - 1), LineOf(f, HEIGHT - k);
    if j < k - 1 {
      TextLine(f, k - 1, j);
      EarlierLine(before, line + ['\n'], |f|, j);
      assert Text(f, k) == before + (line + ['\n']);
    } else {
      LastLine(before, line, |f|, j);
    }
  }

  lemma TextPixel(f: Frame, x: nat, y: nat)
    requires x < |f| && y < HEIGHT
    ensures HasLine(Text(f, HEIGHT), |f|, HEIGHT - 1 - y)
    ensures Line(Text(f, HEIGHT), |f|, HEIGHT - 1 - y)[x] == if Pixel(f, x, y) then 'X' else ' '
  {
    hide HasLine, Line, Text, Pixel, LineStart;
    TextLine(f, HEIGHT, HEIGHT - 1 - y);
  }

  /** Decoding the text of a frame yields that frame, whatever was there before. */
  lemma DecodeText(f: Frame, g: Frame)
    requires |f| == |g|
    ensures forall j: nat :: j < HEIGHT ==> HasLine(Text(f, HEIGHT), |f|, j)
    ensures Painted(g, Text(f, HEIGHT), HEIGHT) == f
  {
    hide HasLine, Line, Text, Pixel, LineStart, Painted;
    var text := Text(f, HEIGHT);
    forall j: nat | j < HEIGHT
      ensures HasLine(text, |f|, j)
    {
      TextLine(f, HEIGHT, j);
    }
    var painted := Painted(g, text, HEIGHT);
    forall x: nat, y: nat | x < |f| && y < HEIGHT
      ensures Pixel(painted, x, y) == Pixel(f, x, y)
    {
      PaintedPixel(g, text, HEIGHT, x, y);
      TextPixel(f, x, y);
    }
    FrameIsItsPixels(painted, f);
  }

  /** The text of a decoded body is the body with every character other than 'X' turned into a space. */
  lemma TextOfDecoded(f: Frame, text: seq<char>, k: nat, x: nat)
    requires LineStart(|f|, HEIGHT) <= |text| && k < HEIGHT && x < |f|
    ensures LineStart(|f|, k + 1) <= LineStart(|f|, HEIGHT)
    ensures Line(Text(Painted(f, text, HEIGHT), HEIGHT), |f|, k)[x] == if Line(text, |f|, k)[x] == 'X' then 'X' else ' '
  {
    LineStartMonotone(|f|, k + 1, HEIGHT);
    hide HasLine, Line, Text, Pixel, LineStart, Painted;
    TextPixel(Painted(f, text, HEIGHT), x, HEIGHT - 1 - k);
    PaintedPixel(f, text, HEIGHT, x, HEIGHT - 1 - k);
  }

  /** Decoding depends on the first sixteen lines only. */
  lemma {:induction false} PaintedIgnoresRest(f: Frame, text: seq<char>, rest: seq<char>, k: nat)
    requires k <= HEIGHT && LineStart(|f|, k) <= |text|
    ensures Painted(f, text + rest, k) == Painted(f, text, k)
  {
    if k > 0 {
      PaintedIgnoresRest(f, text, rest, k - 1);
      assert Line(text + rest, |f|, k - 1) == Line(text, |f|, k - 1);
    }
  }

  // ----- Where a pixel is in the text

  /** All lines before line `k` have `width` characters and a newline. */
  lemma {:induction false} LineStartAt(width: nat, k: nat)
    ensures LineStart(width, k) == k * (width + 1)
  {
    if k > 0 {
      LineStartAt(width, k - 1);
      assert k * (width + 1) == (k - 1) * (width + 1) + (width + 1);
    }
  }

  /** The text of a frame: top row first, sixteen lines of 'X' and ' ', each ended by a newline. */
  lemma TextCharacter(f: Frame, x: nat, y: nat)
    requires x < |f| && y < 16
    ensures |Text(f, 16)| == LineStart(|f|, 16)
    ensures LineStart(|f|, 15 - y) + |f| < |Text(f, 16)|
    ensures Text(f, 16)[LineStart(|f|, 15 - y) + x] == if Pixel(f, x, y) then 'X' else ' '
    ensures Text(f, 16)[LineStart(|f|, 15 - y) + |f|] == '\n'
  {
    hide Text, Pixel;
    TextPixel(f, x, y);
  }

  /** Decoding: in the rows decoded so far exactly the dots whose character is an 'X' are set. */
  lemma PaintedCharacter(f: Frame, text: seq<char>, k: nat, x: nat, y: nat)
    requires k <= 16 && LineStart(|f|, k) <= |text| && x < |f| && 16 - k <= y < 16
    ensures LineStart(|f|, 15 - y) + |f| < |text|
    ensures Pixel(Painted(f, text, k), x, y) <==> text[LineStart(|f|, 15 - y) + x] == 'X'
  {
    hide Painted, Pixel;
    LineStartMonotone(|f|, 16 - y, k);
    PaintedPixel(f, text, k, x, y);
  }
}
