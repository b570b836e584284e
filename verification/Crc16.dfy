/**
  crc16.c: bit-serial division by x^16 + x^15 + x^2 + 1, starting from zero and without augmentation. Bytes and the
  16-bit register are their bits, most significant first.
 */
module Crc16 {
  import opened Polynomials

  type byte = b: seq<bool> | |b| == 8 witness Zeros(8)
  type word = w: seq<bool> | |w| == 16 witness Zeros(16)

  /** 0x8005 */
  const CRC16: word := [true, false, false, false, false, false, false, false,
                        false, false, false, false, false, true, false, true]

  /** The generator x^16 + x^15 + x^2 + 1. */
  const GENERATOR: Poly := [true] + CRC16

  /** `out << 1` with `bit` shifted in. */
  function ShiftIn(out: word, bit: bool): word {
    out[1..] + [bit]
  }

  /** One round of the loop: shift one bit in, subtract the generator if a bit was shifted out. */
  function Cycle(out: word, bit: bool): word {
    if out[0] then Add(ShiftIn(out, bit), CRC16) else ShiftIn(out, bit)
  }

  /** The register after a sequence of bits. */
  function Feed(out: word, bits: seq<bool>): word {
    if bits == [] then out else Cycle(Feed(out, bits[..|bits| - 1]), bits[|bits| - 1])
  }

  /** The bits of a buffer, in the order in which the loop takes them. */
  function Bits(buf: seq<byte>): (bits: seq<bool>)
    ensures |bits| == 8 * |buf|
  {
    if buf == [] then [] else Bits(buf[..|buf| - 1]) + buf[|buf| - 1]
  }

  /** Byte after byte, the most significant bit of each first. */
  lemma {:induction false} BitsAt(buf: seq<byte>, i: nat, j: nat)
    requires i < |buf| && j < 8
    ensures Bits(buf)[8 * i + j] == buf[i][j]
  {
    var n := |buf| - 1;
    if i < n {
      BitsAt(buf[..n], i, j);
    }
  }

  function Crc(buf: seq<byte>): word {
    Feed(Zeros(16), Bits(buf))
  }

  lemma {:induction false} FeedThen(out: word, a: seq<bool>, b: seq<bool>)
    ensures Feed(out, a + b) == Feed(Feed(out, a), b)
    decreases |b|
  {
    if b == [] {
      assert a + b == a;
    } else {
      FeedThen(out, a, b[..|b| - 1]);
      assert (a + b)[..|a + b| - 1] == a + b[..|b| - 1];
    }
  }

  /** What is in the register when `next` bytes and `bitsRead` bits of the following byte were fed. */
  function Progress(buf: seq<byte>, next: nat, bitsRead: nat): word
    requires next <= |buf| && bitsRead <= 8 && (next == |buf| ==> bitsRead == 0)
  {
    if bitsRead == 0 then Feed(Zeros(16), Bits(buf[..next]))
    else Feed(Feed(Zeros(16), Bits(buf[..next])), buf[next][..bitsRead])
  }

  lemma ProgressBit(buf: seq<byte>, next: nat, bitsRead: nat)
    requires next < |buf| && bitsRead < 8
    ensures Progress(buf, next, bitsRead + 1) == Cycle(Progress(buf, next, bitsRead), buf[next][bitsRead])
    ensures bitsRead == 7 ==> Progress(buf, next, 8) == Progress(buf, next + 1, 0)
  {
    hide Cycle;
    var before, bits := Feed(Zeros(16), Bits(buf[..next])), buf[next];
    assert bits[..bitsRead + 1][..bitsRead] == bits[..bitsRead];
    if bitsRead == 7 {
      assert buf[..next + 1][..next] == buf[..next];
      assert bits[..8] == bits;
      FeedThen(Zeros(16), Bits(buf[..next]), bits);
    }
  }

  /** The loop of crc16, one bit per round; a null buffer yields zero. */
  method Compute(buf: array?<byte>) returns (out: word)
    ensures buf == null ==> out == Zeros(16)
    ensures buf != null ==> out == Crc(buf[..])
  {
    out := Zeros(16);
    if buf == null {
      return;
    }
    var bitsRead, next, bufLen := 0, 0, buf.Length;
    while bufLen > 0
      invariant 0 <= bitsRead < 8 && next + bufLen == buf.Length && 0 <= bufLen
      invariant bufLen == 0 ==> bitsRead == 0
      invariant out == Progress(buf[..], next, bitsRead)
      decreases bufLen, 8 - bitsRead
    {
      ProgressBit(buf[..], next, bitsRead);
      var bitFlag := out[0];
      out := ShiftIn(out, buf[next][bitsRead]);
      bitsRead := bitsRead + 1;
      if bitsRead > 7 {
        bitsRead := 0;
        next := next + 1;
        bufLen := bufLen - 1;
      }
      if bitFlag {
        out := Add(out, CRC16);
      }
    }
    assert buf[..next] == buf[..];
  }
}
