/** httpd.c: GET and POST of /framebuffer. */
module HttpApi {
  import opened Columns
  import opened Errors
  import opened Frames
  import opened Framebuffers
  import opened FrameText

  /**
    A request whose body arrives in pieces. `chunks(n)` is what the network has ready at the n-th receive call: that
    many bytes at most, or, if not positive, an error. A receive with nothing left to deliver fails.
   */
  class Request {
    const contentLen: int
    const body: seq<char>
    const chunks: nat -> int
    var pos: nat
    var calls: nat

    constructor (contentLen: int, body: seq<char>, chunks: nat -> int)
      ensures this.contentLen == contentLen && this.body == body && this.chunks == chunks
      ensures pos == 0
    {
      this.contentLen, this.body, this.chunks := contentLen, body, chunks;
      pos, calls := 0, 0;
    }

    ghost predicate Valid()
      reads this
    {
      pos <= |body|
    }

    /** No receive fails as long as bytes are left. */
    ghost predicate Reliable() {
      forall n :: chunks(n) > 0
    }

    /** httpd_req_recv into `buf` from `offset` on, at most `want` bytes. */
    method Recv(buf: array<char>, offset: nat, want: nat) returns (ret: int)
      requires Valid() && 0 < want && offset + want <= buf.Length
      modifies this, buf
      ensures Valid() && ret <= want
      ensures if ret <= 0 then pos == old(pos) && buf[..] == old(buf[..])
              else pos == old(pos) + ret
                   && buf[..] == old(buf[..offset]) + body[old(pos)..pos] + old(buf[offset + ret..])
      ensures Reliable() && old(pos) < |body| ==> ret > 0
    {
      ret := chunks(calls);
      calls := calls + 1;
      if ret > want {
        ret := want;
      }
      if ret > |body| - pos {
        ret := |body| - pos;
      }
      if ret <= 0 {
        return;
      }
      forall i | 0 <= i < ret {
        buf[offset + i] := body[pos + i];
      }
      pos := pos + ret;
    }
  }

  /** The inner loop of http_api_post_framebuffer: fills `buf` or reports failure. */
  method ReceiveLine(req: Request, buf: array<char>) returns (ok: bool)
    requires req.Valid() && buf.Length > 0
    modifies req, buf
    ensures req.Valid()
    ensures ok ==> req.pos == old(req.pos) + buf.Length && buf[..] == req.body[old(req.pos)..req.pos]
    ensures !ok ==> !req.Reliable() || |req.body| < old(req.pos) + buf.Length
  {
    var received := 0;
    while received < buf.Length
      invariant 0 <= received <= buf.Length && req.Valid()
      invariant req.pos == old(req.pos) + received
      invariant buf[..received] == req.body[old(req.pos)..req.pos]
    {
      ghost var start, before := req.pos, buf[..];
      var ret := req.Recv(buf, received, buf.Length - received);
      if ret <= 0 {
        return false;
      }
      assert buf[..received + ret] == before[..received] + req.body[start..req.pos];
      received := received + ret;
    }
    assert buf[..received] == buf[..];
    ok := true;
  }

  /** The character for the dot at (x, y), and the end of its line. */
  predicate ShowsPixel(response: seq<char>, f: Frame, x: nat, y: nat)
    requires x < |f| && y < 16
  {
    && LineStart(|f|, 15 - y) + |f| < |response|
    && response[LineStart(|f|, 15 - y) + x] == (if Pixel(f, x, y) then 'X' else ' ')
    && response[LineStart(|f|, 15 - y) + |f|] == '\n'
  }

  /** The response to a GET: an 'X' for each bright dot and a space for each dark one, top row first, one row a line. */
  ghost predicate ShowsFrame(response: seq<char>, f: Frame) {
    |response| == LineStart(|f|, 16) && forall x: nat, y: nat :: x < |f| && y < 16 ==> ShowsPixel(response, f, x, y)
  }

  lemma TextShowsFrame(f: Frame)
    ensures ShowsFrame(Text(f, HEIGHT), f)
  {
    hide Pixel, LineStart;
    forall x: nat, y: nat | x < |f| && y < 16
      ensures ShowsPixel(Text(f, HEIGHT), f, x, y)
    {
      TextCharacter(f, x, y);
    }
  }

  method GetFramebuffer(framebuffer: Framebuffer) returns (response: seq<char>)
    requires framebuffer.Valid()
    ensures response == Text(framebuffer.Image(), HEIGHT)
    ensures ShowsFrame(response, framebuffer.Image())
  {
    var buf := new char[framebuffer.width + 1](_ => '\0');
    response := [];
    var y := HEIGHT;
    while y > 0
      invariant 0 <= y <= HEIGHT
      invariant response == Text(framebuffer.Image(), HEIGHT - y)
    {
      y := y - 1;
      ghost var f := framebuffer.Image();
      var _ := framebuffer.EncodeLine(buf, y);
      assert buf[..] == LineOf(f, y) + ['\0'];
      buf[buf.Length - 1] := '\n';
      assert buf[..] == LineOf(f, y) + ['\n'];
      response := response + buf[..];
      assert Text(f, HEIGHT - y) == Text(f, HEIGHT - y - 1) + (LineOf(f, y) + ['\n']);
    }
    TextShowsFrame(framebuffer.Image());
  }

  /** The body starts with sixteen lines of `width` characters and a newline. */
  predicate WellFormedBody(body: seq<char>, width: nat) {
    forall j: nat :: j < HEIGHT ==> HasLine(body, width, j)
  }

  lemma ShortBody(text: seq<char>, width: nat)
    ensures |text| < width + 1 ==> !WellFormedBody(text, width)
  {
    assert |text| < width + 1 ==> !HasLine(text, width, 0);
  }

  lemma MissingLine(text: seq<char>, width: nat, k: nat)
    requires |text| < LineStart(width, k) + width + 1
    ensures !HasLine(text, width, k)
  {
  }

  /** The count of good lines stops at the first line that is missing. */
  lemma FirstBadLine(text: seq<char>, width: nat, k: nat)
    requires k <= HEIGHT && forall j: nat :: j < k ==> HasLine(text, width, j)
    requires k < HEIGHT ==> !HasLine(text, width, k)
    ensures GoodLines(text, width, HEIGHT) == k
    ensures WellFormedBody(text, width) <==> k == HEIGHT
  {
  }

  /** What the bytes of one line say about line `k` of the text. */
  lemma LineReceived(text: seq<char>, width: nat, k: nat, bytes: seq<char>)
    requires LineStart(width, k + 1) <= |text| && bytes == text[LineStart(width, k)..LineStart(width, k) + width + 1]
    ensures bytes[..width] == Line(text, width, k)
    ensures HasLine(text, width, k) <==> bytes[width] == '\n'
  {
    assert bytes[..width] == text[LineStart(width, k)..LineStart(width, k) + width];
  }

  lemma LinePainted(f: Frame, text: seq<char>, k: nat)
    requires k < HEIGHT && LineStart(|f|, k + 1) <= |text|
    ensures Painted(f, text, k + 1) == WithRow(Painted(f, text, k), HEIGHT - 1 - k, Decoded(Line(text, |f|, k)), |f|)
  {
  }

  /** The dot at (x, y) after `k` lines of the body were decoded: bright for an 'X', or still as before. */
  predicate DecodesPixel(before: Frame, body: seq<char>, k: nat, after: Frame, x: nat, y: nat)
    requires x < |before| && y < 16
  {
    if y + k < 16 then Pixel(after, x, y) == Pixel(before, x, y)
    else
      && LineStart(|before|, 15 - y) + |before| < |body|
      && body[LineStart(|before|, 15 - y) + |before|] == '\n'
      && (Pixel(after, x, y) <==> body[LineStart(|before|, 15 - y) + x] == 'X')
  }

  ghost predicate Decodes(before: Frame, body: seq<char>, k: nat, after: Frame) {
    |after| == |before| && forall x: nat, y: nat :: x < |before| && y < 16 ==> DecodesPixel(before, body, k, after, x, y)
  }

  ghost predicate LinesReceived(body: seq<char>, width: nat, k: nat) {
    k <= 16 && LineStart(width, k) <= |body| && forall j: nat :: j < k ==> HasLine(body, width, j)
  }

  lemma PaintedDecodes(f: Frame, body: seq<char>, k: nat)
    requires LinesReceived(body, |f|, k)
    ensures Decodes(f, body, k, Painted(f, body, k))
  {
    hide Painted, Pixel, LineStart;
    forall x: nat, y: nat | x < |f| && y < 16
      ensures DecodesPixel(f, body, k, Painted(f, body, k), x, y)
    {
      PaintedPixel(f, body, k, x, y);
      if y + k >= 16 {
        PaintedCharacter(f, body, k, x, y);
        assert HasLine(body, |f|, 15 - y);
      }
    }
  }

  lemma PaintedLength(body: seq<char>, width: nat, k: nat)
    requires LinesReceived(body, width, k)
    ensures k <= HEIGHT && LineStart(width, k) <= |body|
  {
  }

  lemma EveryPrefixDecodes(f: Frame, body: seq<char>)
    ensures forall k: nat :: LinesReceived(body, |f|, k) ==>
              k <= HEIGHT && LineStart(|f|, k) <= |body| && Decodes(f, body, k, Painted(f, body, k))
  {
    hide Decodes, Painted, LinesReceived;
    forall k: nat | LinesReceived(body, |f|, k)
      ensures k <= HEIGHT && LineStart(|f|, k) <= |body| && Decodes(f, body, k, Painted(f, body, k))
    {
      PaintedLength(body, |f|, k);
      PaintedDecodes(f, body, k);
    }
  }

  /** Line `k` of the body is there, but does not end where it should. */
  predicate UnendedLine(body: seq<char>, width: nat, k: nat) {
    k < 16 && LineStart(width, k) + width < |body| && body[LineStart(width, k) + width] != '\n'
  }

  /** Why a request stops after `k` lines, and that these were all the good ones. */
  ghost predicate StopsAfter(body: seq<char>, width: nat, k: nat, error: Error, reliable: bool) {
    && k < 16
    && match error
       case InvalidArg => UnendedLine(body, width, k) && GoodLines(body, width, HEIGHT) == k && !WellFormedBody(body, width)
       case Fail =>
         reliable ==>
           && |body| < LineStart(width, k) + width + 1
           && GoodLines(body, width, HEIGHT) == k && !WellFormedBody(body, width)
       case _ => false
  }

  lemma StopsUnended(body: seq<char>, width: nat, k: nat, reliable: bool)
    requires LinesReceived(body, width, k) && UnendedLine(body, width, k)
    ensures StopsAfter(body, width, k, InvalidArg, reliable)
  {
    FirstBadLine(body, width, k);
  }

  lemma StopsMissing(body: seq<char>, width: nat, k: nat, reliable: bool)
    requires k < 16 && LinesReceived(body, width, k) && (reliable ==> |body| < LineStart(width, k) + width + 1)
    ensures StopsAfter(body, width, k, Fail, reliable)
  {
    if reliable {
      MissingLine(body, width, k);
      FirstBadLine(body, width, k);
    }
  }

  lemma OneMoreLine(body: seq<char>, width: nat, k: nat)
    requires k < 16 && LinesReceived(body, width, k)
    requires LineStart(width, k) + width < |body| && body[LineStart(width, k) + width] == '\n'
    ensures LinesReceived(body, width, k + 1) && LineStart(width, k + 1) == LineStart(width, k) + width + 1
  {
  }

  /** One round of the loop: the line for row `y` is received and decoded. `before` is the frame before the first round. */
  method PostLine(req: Request, framebuffer: Framebuffer, buf: array<char>, y: nat, ghost before: Frame) returns (error: Error)
    requires framebuffer.Valid() && req.Valid() && buf.Length == framebuffer.width + 1 && y < 16
    requires LinesReceived(req.body, framebuffer.width, 15 - y) && req.pos == LineStart(framebuffer.width, 15 - y)
    requires |before| == framebuffer.width && framebuffer.Image() == Painted(before, req.body, 15 - y)
    modifies req, framebuffer.columns, buf
    ensures framebuffer.Valid() && req.Valid()
    ensures error == Ok ==>
      && LinesReceived(req.body, framebuffer.width, 16 - y) && req.pos == LineStart(framebuffer.width, 16 - y)
      && framebuffer.Image() == Painted(before, req.body, 16 - y)
    ensures error != Ok ==>
      framebuffer.Image() == old(framebuffer.Image()) && StopsAfter(req.body, framebuffer.width, 15 - y, error, req.Reliable())
  {
    hide LinesReceived, StopsAfter, GoodLines, WellFormedBody, WithRow, Decoded, Painted, HasLine, Line, LineStart;
    ghost var k, width := 15 - y, framebuffer.width;
    var ok := ReceiveLine(req, buf);
    if !ok {
      StopsMissing(req.body, width, k, req.Reliable());
      return Fail;
    }
    ghost var received := buf[..];
    assert received[width] == req.body[LineStart(width, k) + width];
    if buf[framebuffer.width] != '\n' {
      StopsUnended(req.body, width, k, req.Reliable());
      return InvalidArg;
    }
    OneMoreLine(req.body, width, k);
    LineReceived(req.body, width, k, received);
    LinePainted(before, req.body, k);
    buf[framebuffer.width] := '\0';
    assert buf[..width] == received[..width];
    error := framebuffer.DecodeLine(buf, y);
  }

  lemma NoLineYet(f: Frame, body: seq<char>)
    ensures LinesReceived(body, |f|, 0) && LineStart(|f|, 0) == 0 && Painted(f, body, 0) == f
  {
  }

  lemma AllLinesReceived(body: seq<char>, width: nat)
    requires LinesReceived(body, width, 16)
    ensures GoodLines(body, width, HEIGHT) == 16 && WellFormedBody(body, width)
  {
    FirstBadLine(body, width, 16);
  }

  lemma LinesAreGood(body: seq<char>, width: nat, k: nat)
    requires LinesReceived(body, width, k)
    ensures k <= HEIGHT && LineStart(width, k) <= |body| && forall j: nat :: j < k ==> HasLine(body, width, j)
  {
  }

  /**
    http_api_post_framebuffer. `lines` counts the lines decoded into the shared framebuffer; `dirty` tells whether the
    dirty bit was set. A failing request leaves the lines before the failure in the framebuffer, without setting it.
    On a reliable connection nothing depends on how the body is cut into chunks.
   */
  method PostFramebuffer(req: Request, framebuffer: Framebuffer)
    returns (error: Error, response: seq<char>, dirty: bool, ghost lines: nat)
    requires framebuffer.Valid() && req.Valid() && req.pos == 0
    modifies req, framebuffer.columns
    ensures lines <= HEIGHT && LineStart(framebuffer.width, lines) <= |req.body|
    ensures forall j: nat :: j < lines ==> HasLine(req.body, framebuffer.width, j)
    ensures framebuffer.Image() == Painted(old(framebuffer.Image()), req.body, lines)
    ensures error == Ok <==> lines == HEIGHT
    ensures dirty <==> error == Ok
    ensures Decodes(old(framebuffer.Image()), req.body, lines, framebuffer.Image())
    ensures error == Ok ==> response == Text(framebuffer.Image(), HEIGHT) && ShowsFrame(response, framebuffer.Image())
    ensures error != Ok ==> response == [] && (error == InvalidArg || error == Fail)
    ensures req.contentLen < framebuffer.width + 1 ==> error == InvalidArg && lines == 0 && req.pos == 0
    ensures error == InvalidArg && req.contentLen >= framebuffer.width + 1 ==> UnendedLine(req.body, framebuffer.width, lines)
    ensures error == Fail ==>
              lines < 16 && (!req.Reliable() || |req.body| < LineStart(framebuffer.width, lines) + framebuffer.width + 1)
    ensures req.Reliable() && req.contentLen >= framebuffer.width + 1 ==>
              lines == GoodLines(req.body, framebuffer.width, HEIGHT)
    ensures req.Reliable() && req.contentLen >= |req.body| ==>
              (error == Ok <==> WellFormedBody(req.body, framebuffer.width))
  {
    hide LinesReceived, GoodLines, WellFormedBody, Text, Painted, HasLine, LineStart, Decodes, ShowsFrame, UnendedLine;
    ghost var before := framebuffer.Image();
    EveryPrefixDecodes(before, req.body);
    NoLineYet(before, req.body);
    ShortBody(req.body, framebuffer.width);
    var buf := new char[framebuffer.width + 1](_ => '\0');
    var remaining := req.contentLen;
    response, dirty, lines := [], false, 0;
    var y := 16;
    while y > 0
      invariant 0 <= y <= 16 && lines == 16 - y
      invariant framebuffer.Valid() && req.Valid()
      invariant framebuffer.columns == old(framebuffer.columns) && framebuffer.width == old(framebuffer.width)
      invariant LinesReceived(req.body, framebuffer.width, lines) && req.pos == LineStart(framebuffer.width, lines)
      invariant framebuffer.Image() == Painted(before, req.body, lines)
      invariant lines > 0 ==> remaining >= framebuffer.width + 1
    {
      LinesAreGood(req.body, framebuffer.width, lines);
      if remaining < framebuffer.width + 1 {
        return InvalidArg, [], false, lines;
      }
      error := PostLine(req, framebuffer, buf, y - 1, before);
      if error != Ok {
        return error, [], false, lines;
      }
      lines := lines + 1;
      y := y - 1;
    }
    LinesAreGood(req.body, framebuffer.width, lines);
    AllLinesReceived(req.body, framebuffer.width);
    dirty := true;
    response := GetFramebuffer(framebuffer);
    error := Ok;
  }
}
