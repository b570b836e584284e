/** The framebuffer_t record and the functions that work on it in place. */
module Framebuffers {
  import opened Columns
  import opened Errors
  import opened Frames

  const PIXEL_SET := 'X'
  const PIXEL_CLEAR := ' '

  function EncodePixel(value: bool): char {
    if value then PIXEL_SET else PIXEL_CLEAR
  }

  function DecodePixel(src: char): bool {
    src == PIXEL_SET
  }

  /** Row `y` of a frame as text, without line terminator. */
  function LineOf(f: Frame, y: nat): (line: seq<char>)
    ensures |line| == |f|
  {
    seq(|f|, x requires 0 <= x < |f| => EncodePixel(Pixel(f, x, y)))
  }

  function Decoded(line: seq<char>): (row: seq<bool>)
    ensures |row| == |line|
  {
    seq(|line|, x requires 0 <= x < |line| => DecodePixel(line[x]))
  }

  function Min(a: int, b: int): int {
    if a < b then a else b
  }

  class Framebuffer {
    var columns: array<Column>
    var width: nat

    ghost predicate Valid()
      reads this
    {
      columns.Length == width && 0 < width < 256
    }

    /** The abstract value of the buffer. */
    ghost function Image(): Frame
      reads this, columns
    {
      columns[..]
    }

    constructor (width: nat)
      requires 0 < width < 256
      ensures Valid() && fresh(columns) && this.width == width
      ensures Image() == seq(width, _ => {})
    {
      this.width := width;
      columns := new Column[width](_ => {});
      new;
      assert columns[..] == seq(width, _ => {});
    }

    /** What calloc leaves behind: no columns. */
    constructor Blank()
      ensures width == 0 && columns.Length == 0 && fresh(columns)
    {
      width := 0;
      columns := new Column[0];
    }

    static method Init(width: nat) returns (error: Error, framebuffer: Framebuffer?)
      requires width < 256
      ensures error == if width == 0 then InvalidArg else Ok
      ensures error == Ok <==> framebuffer != null
      ensures error == Ok ==> fresh(framebuffer) && framebuffer.Valid() && fresh(framebuffer.columns)
      ensures error == Ok ==> framebuffer.Image() == seq(width, _ => {})
    {
      if width == 0 {
        return InvalidArg, null;
      }
      framebuffer := new Framebuffer(width);
      error := Ok;
    }

    method Clear()
      requires Valid()
      modifies columns
      ensures Image() == seq(width, _ => {})
    {
      forall x | 0 <= x < columns.Length {
        columns[x] := {};
      }
      assert columns[..] == seq(width, _ => {});
    }

    function GetPixel(x: nat, y: nat): (value: bool)
      requires Valid() && x < 256 && y < 256
      reads this, columns
      ensures value == Pixel(Image(), x, y)
      ensures value ==> x < width && y <= 16
    {
      if x >= width || y > 16 then false else
        var column := columns[x];
        var offset := if y >= 8 then 15 - y % 8 else 7 - y;
        offset in column
    }

    method SetPixel(x: nat, y: nat, value: bool) returns (error: Error)
      requires Valid() && x < 256 && y < 256
      modifies columns
      ensures error == (if x < width && y <= 16 then Ok else InvalidArg)
      ensures Image() == if error == Ok then WithPixel(old(Image()), x, y, value) else old(Image())
    {
      if x >= width || y > 16 {
        return InvalidArg;
      }
      var offset := if y >= 8 then 15 - y % 8 else 7 - y;
      if value {
        columns[x] := columns[x] + {offset};
      } else {
        columns[x] := columns[x] - {offset};
      }
      return Ok;
    }

    /** Writes row `y` as text into `dst` and ends it with a NUL; `complete` is false where the source returns NULL. */
    method EncodeLine(dst: array<char>, y: nat) returns (complete: bool)
      requires Valid() && y < HEIGHT && 1 <= dst.Length
      modifies dst
      ensures complete <==> dst.Length > width
      ensures var n := Min(width, dst.Length - 1);
              dst[..] == LineOf(Image(), y)[..n] + old(dst[n..dst.Length - 1]) + ['\0']
      ensures forall x :: 0 <= x < width && x < dst.Length - 1 ==> dst[x] == if Pixel(Image(), x, y) then 'X' else ' '
    {
      var n := Min(width, dst.Length - 1);
      var x := 0;
      while x < n
        invariant 0 <= x <= n
        invariant forall i :: 0 <= i < x ==> dst[i] == LineOf(Image(), y)[i]
        invariant forall i :: x <= i < dst.Length ==> dst[i] == old(dst[i])
      {
        dst[x] := EncodePixel(GetPixel(x, y));
        x := x + 1;
      }
      dst[dst.Length - 1] := '\0';
      complete := !(dst.Length - 1 < width);
    }

    /** Overwrites row `y` from the text in `src`, which ends with one terminator. */
    method DecodeLine(src: array<char>, y: nat) returns (error: Error)
      requires Valid() && y < HEIGHT && 1 <= src.Length
      modifies columns
      ensures error == if src.Length == width + 1 then Ok else InvalidArg
      ensures Image() == if error == Ok then WithRow(old(Image()), y, Decoded(src[..width]), width) else old(Image())
      ensures error == Ok ==>
                forall x: nat, y': nat :: x < width && y' < 16 ==>
                  (Pixel(Image(), x, y') <==> if y' == y then src[x] == 'X' else Pixel(old(Image()), x, y'))
    {
      if width != src.Length - 1 {
        return InvalidArg;
      }
      ghost var row := Decoded(src[..width]);
      var x := 0;
      while x < Min(width, src.Length - 1)
        invariant 0 <= x <= width
        invariant Image() == WithRow(old(Image()), y, row, x)
      {
        var _ := SetPixel(x, y, DecodePixel(src[x]));
        x := x + 1;
      }
      forall x: nat, y': nat | x < width && y' < 16
        ensures Pixel(Image(), x, y') <==> if y' == y then src[x] == 'X' else Pixel(old(Image()), x, y')
      {
        WithRowChangesOneRow(old(Image()), y, row, width, x, y');
      }
      return Ok;
    }

    /** Overwrites this buffer with a private copy of `src`. */
    method CopyFrom(src: Framebuffer) returns (error: Error)
      requires src.columns.Length == src.width < 256
      modifies this
      ensures error == if old(src.width) == 0 then InvalidArg else Ok
      ensures error == Ok ==> Valid() && fresh(columns) && width == old(src.width) && Image() == old(src.Image())
      ensures error != Ok ==> unchanged(this)
    {
      if src.width == 0 {
        return InvalidArg;
      }
      var copy := new Column[src.width](_ => {});
      forall x | 0 <= x < src.width {
        copy[x] := src.columns[x];
      }
      assert copy[..] == src.columns[..];
      var n := src.width;
      columns := copy;
      width := n;
      return Ok;
    }
  }

  method ComparePartial(a: Framebuffer, b: Framebuffer, start: nat, width: nat) returns (error: Error, diff: nat)
    requires a.Valid() && b.Valid() && start < 256 && width < 256
    ensures error == if a.width != b.width || width == 0 || start + width > a.width then InvalidArg else Ok
    ensures error == Ok ==> diff == Difference(a.Image(), b.Image(), start, width)
    ensures error == Ok ==>
              diff == |set x: nat, y: nat | start <= x < start + width && y < 16
                                            && Pixel(a.Image(), x, y) != Pixel(b.Image(), x, y) :: (x, y)|
    ensures error == Ok ==> (diff == 0 <==> SameOn(a.Image(), b.Image(), start, width))
  {
    diff := 0;
    if a.width != b.width || width == 0 || start + width > a.width {
      return InvalidArg, 0;
    }
    var x := 0;
    while x < width
      invariant 0 <= x <= width
      invariant diff == Difference(a.Image(), b.Image(), start, x)
    {
      diff := diff + Flips(a.columns[x + start], b.columns[x + start]);
      x := x + 1;
    }
    DifferenceZero(a.Image(), b.Image(), start, width);
    DifferenceCountsPixels(a.Image(), b.Image(), start, width);
    assert DifferingPixels(a.Image(), b.Image(), start, width)
        == set x: nat, y: nat | start <= x < start + width && y < 16
                                && Pixel(a.Image(), x, y) != Pixel(b.Image(), x, y) :: (x, y);
    error := Ok;
  }

  method Compare(a: Framebuffer, b: Framebuffer) returns (error: Error, diff: nat)
    requires a.Valid() && b.Valid()
    ensures error == if a.width != b.width then InvalidArg else Ok
    ensures error == Ok ==> diff == Distance(a.Image(), b.Image()) && (diff == 0 <==> a.Image() == b.Image())
    ensures error == Ok ==>
              diff == |set x: nat, y: nat | x < a.width && y < 16 && Pixel(a.Image(), x, y) != Pixel(b.Image(), x, y) :: (x, y)|
  {
    error, diff := ComparePartial(a, b, 0, a.width);
    if error == Ok {
      DistanceZero(a.Image(), b.Image());
      DistanceCountsPixels(a.Image(), b.Image());
    }
  }
}
