/** What the checksum of crc16.c means, and which damage it detects. */
module CrcTheory {
  import opened Crc16
  import opened Polynomials

  /** One round multiplies by x, adds the new bit and takes the generator off if x^16 appeared. */
  lemma CycleDivides(out: word, bit: bool)
    ensures out + [bit] == Add(Scale(out[0], GENERATOR), [false] + Cycle(out, bit))
  {
  }

  /** The bits of the quotient: those shifted out on the way. */
  function Quotient(bits: seq<bool>): (q: Poly)
    ensures |q| == |bits|
  {
    if bits == [] then [] else
      var before := bits[..|bits| - 1];
      Quotient(before) + [Feed(Zeros(16), before)[0]]
  }

  lemma AppendToSum(a: Poly, b: Poly, bit: bool)
    requires |a| == |b|
    ensures Add(a, b) + [bit] == Add(a + [false], b + [bit])
  {
  }

  lemma Regroup(a: Poly, n: nat, taken: Poly, next: Poly, sum: Poly)
    requires |a| == n + 17 && |taken| == 17 && |next| == 16 && sum == Add(taken, [false] + next)
    ensures Add(a, Zeros(n) + sum) == Add(Add(a, Zeros(n) + taken), Zeros(n + 1) + next)
  {
    forall i | 0 <= i < n + 17
      ensures (Zeros(n) + sum)[i] == ((Zeros(n) + taken)[i] != (Zeros(n + 1) + next)[i])
    {
      if i > n {
        assert (Zeros(n) + sum)[i] == sum[i - n] && ([false] + next)[i - n] == next[i - n - 1];
      } else if i == n {
        assert (Zeros(n) + sum)[i] == sum[0];
      }
    }
  }

  /** One more bit of the dividend: what comes out of one round is what is left over. */
  lemma DivisionSum(before: Poly, product: Poly, n: nat, out: word, bit: bool, taken: Poly, next: word)
    requires |product| == n + 16 && before == Add(product, Zeros(n) + out)
    requires |taken| == 17 && out + [bit] == Add(taken, [false] + next)
    ensures before + [bit] == Add(Add(product + [false], Zeros(n) + taken), Zeros(n + 1) + next)
  {
    hide Add;
    AppendToSum(product, Zeros(n) + out, bit);
    assert Zeros(n) + out + [bit] == Zeros(n) + (out + [bit]);
    Regroup(product + [false], n, taken, next, out + [bit]);
  }

  lemma DivisionStep(bits: seq<bool>, q: Poly, out: word)
    requires |bits| > 0 && |q| == |bits| - 1
    requires Divides(bits[..|bits| - 1], q, GENERATOR, out)
    ensures Divides(bits, q + [out[0]], GENERATOR, Cycle(out, bits[|bits| - 1]))
  {
    hide Mul, Cycle, Scale, Add;
    var n, bit := |bits| - 1, bits[|bits| - 1];
    CycleDivides(out, bit);
    DivisionSum(Zeros(16) + bits[..n], Mul(q, GENERATOR), n, out, bit, Scale(out[0], GENERATOR), Cycle(out, bit));
    assert (Zeros(16) + bits[..n]) + [bit] == Zeros(16) + bits;
    MulSnoc(q, out[0], GENERATOR);
  }

  lemma {:induction false} FeedDivides(bits: seq<bool>)
    ensures Divides(bits, Quotient(bits), GENERATOR, Feed(Zeros(16), bits))
    decreases |bits|
  {
    if bits == [] {
      assert Zeros(16) + [] == Add(Zeros(16), Zeros(0) + Zeros(16));
    } else {
      var n := |bits| - 1;
      FeedDivides(bits[..n]);
      DivisionStep(bits, Quotient(bits[..n]), Feed(Zeros(16), bits[..n]));
    }
  }

  lemma GeneratorPowers(p: Poly)
    requires |p| == 17 && forall i :: 0 <= i < 17 ==> (p[i] <==> 16 - i in {16, 15, 2, 0})
    ensures p == GENERATOR
  {
    forall i | 0 <= i < 17
      ensures p[i] == GENERATOR[i]
    {
      assert GENERATOR[i] <==> 16 - i in {16, 15, 2, 0};
    }
  }

  /**
    crc16 computes the remainder of the message modulo x^16 + x^15 + x^2 + 1 over GF(2), and the only one: with the
    polynomial of these four powers for `p`, the checksum is R exactly when message = Q * p + R for some Q.
   */
  lemma CrcIsTheRemainder(buf: seq<byte>, r: word, p: Poly)
    requires |p| == 17 && forall i :: 0 <= i < 17 ==> (p[i] <==> 16 - i in {16, 15, 2, 0})
    ensures Crc(buf) == r <==> exists q: Poly :: |q| == |Bits(buf)| && Divides(Bits(buf), q, p, r)
  {
    GeneratorPowers(p);
    FeedDivides(Bits(buf));
    forall q: Poly | |q| == |Bits(buf)| && Divides(Bits(buf), q, GENERATOR, r)
      ensures Crc(buf) == r
    {
      DivisionUnique(Bits(buf), GENERATOR, q, r, Quotient(Bits(buf)), Crc(buf));
    }
  }

  // ----- Linearity

  lemma ShiftInLinear(x: word, y: word, a: bool, b: bool)
    ensures ShiftIn(Add(x, y), a != b) == Add(ShiftIn(x, a), ShiftIn(y, b))
  {
  }

  /** Taking the generator off one or both of two registers. */
  lemma SubtractLinear(s: word, t: word)
    ensures Add(Add(s, CRC16), t) == Add(Add(s, t), CRC16) == Add(s, Add(t, CRC16))
    ensures Add(Add(s, CRC16), Add(t, CRC16)) == Add(s, t)
  {
  }

  lemma CycleLinear(x: word, y: word, a: bool, b: bool)
    ensures Cycle(Add(x, y), a != b) == Add(Cycle(x, a), Cycle(y, b))
  {
    hide ShiftIn;
    ShiftInLinear(x, y, a, b);
    SubtractLinear(ShiftIn(x, a), ShiftIn(y, b));
  }

  /** The checksum is linear: that of a difference is the difference of the checksums. */
  lemma {:induction false} FeedLinear(x: word, y: word, a: seq<bool>, b: seq<bool>)
    requires |a| == |b|
    ensures Feed(Add(x, y), Add(a, b)) == Add(Feed(x, a), Feed(y, b))
    decreases |a|
  {
    if a != [] {
      var n := |a| - 1;
      assert Add(a, b)[..n] == Add(a[..n], b[..n]);
      FeedLinear(x, y, a[..n], b[..n]);
      CycleLinear(Feed(x, a[..n]), Feed(y, b[..n]), a[n], b[n]);
    }
  }

  // ----- Burst errors

  /** The two bit strings agree outside the `len` positions from `start`. */
  ghost predicate DifferWithin(a: seq<bool>, b: seq<bool>, start: nat, len: nat) {
    |a| == |b| && forall i :: 0 <= i < |a| && !(start <= i < start + len) ==> a[i] == b[i]
  }

  lemma {:induction false} ZerosKeepZero(n: nat)
    ensures Feed(Zeros(16), Zeros(n)) == Zeros(16)
  {
    if n > 0 {
      ZerosKeepZero(n - 1);
      assert Zeros(n)[..n - 1] == Zeros(n - 1);
      assert Cycle(Zeros(16), false) == Zeros(16);
    }
  }

  /** Up to sixteen bits are still all in the register. */
  /** As long as the register is not full, nothing is shifted out. */
  lemma ShiftShort(bits: seq<bool>, bit: bool)
    requires |bits| < 16
    ensures Cycle(Zeros(16 - |bits|) + bits, bit) == Zeros(15 - |bits|) + (bits + [bit])
  {
    assert (Zeros(16 - |bits|) + bits)[1..] == Zeros(15 - |bits|) + bits;
  }

  lemma {:induction false} ShortInput(bits: seq<bool>)
    requires |bits| <= 16
    ensures Feed(Zeros(16), bits) == Zeros(16 - |bits|) + bits
    decreases |bits|
  {
    hide Cycle;
    if bits == [] {
      assert Zeros(16) + [] == Zeros(16);
    } else {
      var n := |bits| - 1;
      ShortInput(bits[..n]);
      ShiftShort(bits[..n], bits[n]);
      assert bits == bits[..n] + [bits[n]];
    }
  }

  lemma ZeroCycle()
    ensures Cycle(Zeros(16), false) == Zeros(16)
  {
  }

  /** A zero bit never turns a non-zero register into zero: the generator has a constant term. */
  lemma CycleInjective(out: word)
    ensures Cycle(out, false) == Zeros(16) <==> out == Zeros(16)
  {
    ZeroCycle();
    if Cycle(out, false) == Zeros(16) {
      assert !Cycle(out, false)[15];
      assert !out[0];
      forall i | 1 <= i < 16
        ensures !out[i]
      {
        assert !Cycle(out, false)[i - 1];
      }
      assert out == Zeros(16);
    }
  }

  lemma {:induction false} NonZeroStays(out: word, n: nat)
    requires out != Zeros(16)
    ensures Feed(out, Zeros(n)) != Zeros(16)
  {
    if n > 0 {
      NonZeroStays(out, n - 1);
      assert Zeros(n)[..n - 1] == Zeros(n - 1);
      CycleInjective(Feed(out, Zeros(n - 1)));
    }
  }

  /** A bit string that is zero outside a window is zeros, the window, zeros. */
  lemma CutBurst(e: seq<bool>, start: nat, len: nat) returns (i: nat)
    requires start + len <= |e| && DifferWithin(e, Zeros(|e|), start, len) && e != Zeros(|e|)
    ensures e == Zeros(start) + e[start..start + len] + Zeros(|e| - start - len)
    ensures i < len && e[start..start + len][i]
  {
    assert e[..start] == Zeros(start);
    assert e[start + len..] == Zeros(|e| - start - len);
    assert e == e[..start] + e[start..start + len] + e[start + len..];
    var k :| 0 <= k < |e| && e[k];
    i := k - start;
  }

  lemma BurstInRegister(burst: seq<bool>, i: nat)
    requires |burst| <= 16 && i < |burst| && burst[i]
    ensures Zeros(16 - |burst|) + burst != Zeros(16)
  {
    assert (Zeros(16 - |burst|) + burst)[16 - |burst| + i] == burst[i];
  }

  lemma BurstIsNotZero(e: seq<bool>, start: nat, len: nat)
    requires start + len <= |e| && len <= 16 && DifferWithin(e, Zeros(|e|), start, len) && e != Zeros(|e|)
    ensures Feed(Zeros(16), e) != Zeros(16)
  {
    hide Feed, DifferWithin;
    var i := CutBurst(e, start, len);
    var burst, after := e[start..start + len], Zeros(|e| - start - len);
    FeedThen(Zeros(16), Zeros(start) + burst, after);
    FeedThen(Zeros(16), Zeros(start), burst);
    ZerosKeepZero(start);
    ShortInput(burst);
    BurstInRegister(burst, i);
    NonZeroStays(Zeros(16 - len) + burst, |e| - start - len);
  }

  lemma AddSelf(a: Poly)
    ensures Add(a, a) == Zeros(|a|)
  {
  }

  /** Buffers of equal length that differ, but only within 16 consecutive bits, have different checksums. */
  lemma BurstDetected(a: seq<byte>, b: seq<byte>, start: nat)
    requires |a| == |b| && Bits(a) != Bits(b)
    requires forall i :: 0 <= i < |Bits(a)| && Bits(a)[i] != Bits(b)[i] ==> start <= i < start + 16
    ensures Crc(a) != Crc(b)
  {
    hide Feed;
    var x, y := Bits(a), Bits(b);
    var e := Add(x, y);
    FeedLinear(Zeros(16), Zeros(16), x, y);
    AddSelf(Zeros(16));
    AddSelf(Crc(a));
    var i :| 0 <= i < |x| && x[i] != y[i];
    assert e[i];
    var s := if start > |e| then |e| else start;
    BurstIsNotZero(e, s, if s + 16 <= |e| then 16 else |e| - s);
  }

  lemma FeedLast(out: word, bits: seq<bool>)
    requires bits != []
    ensures Feed(out, bits) == Cycle(Feed(out, bits[..|bits| - 1]), bits[|bits| - 1])
  {
  }

  /** With the upper sixteen bits of the generator in the register, its last bit makes the subtraction cancel them. */
  lemma GeneratorCancels()
    ensures Cycle(GENERATOR[..16], GENERATOR[16]) == Zeros(16)
  {
    hide Feed;
    assert ShiftIn(GENERATOR[..16], GENERATOR[16]) == CRC16;
    AddSelf(CRC16);
  }

  lemma GeneratorFeedsToZero()
    ensures Feed(Zeros(16), GENERATOR) == Zeros(16)
  {
    hide Feed, Cycle;
    FeedLast(Zeros(16), GENERATOR);
    ShortInput(GENERATOR[..16]);
    assert Zeros(0) + GENERATOR[..16] == GENERATOR[..16];
    GeneratorCancels();
  }

  /** Sixteen is the limit: at every position a burst of 17 bits exists that the checksum does not see. */
  lemma LongerBurstMissed(a: seq<bool>, start: nat)
    requires start + 17 <= |a|
    ensures var b := Add(a, Zeros(start) + GENERATOR + Zeros(|a| - start - 17));
            a != b && DifferWithin(a, b, start, 17) && Feed(Zeros(16), a) == Feed(Zeros(16), b)
  {
    hide Feed;
    var rest := Zeros(|a| - start - 17);
    var e := Zeros(start) + GENERATOR + rest;
    assert e[start];
    FeedThen(Zeros(16), Zeros(start) + GENERATOR, rest);
    FeedThen(Zeros(16), Zeros(start), GENERATOR);
    ZerosKeepZero(start);
    ZerosKeepZero(|rest|);
    GeneratorFeedsToZero();
    FeedLinear(Zeros(16), Zeros(16), a, e);
    AddSelf(Zeros(16));
    assert Add(Feed(Zeros(16), a), Zeros(16)) == Feed(Zeros(16), a);
  }

  // ----- Odd numbers of errors

  lemma GeneratorEven()
    ensures !Parity(GENERATOR)
  {
    var g := GENERATOR;
    ParityAppends(g[..2], g[2..]);
    ParityAppends(g[2..][..12], g[2..][12..]);
    ParityZeros(12);
    assert g[2..][..12] == Zeros(12);
    assert g == g[..2] + g[2..] && g[2..] == g[2..][..12] + g[2..][12..];
    assert g[..2] == [true, true] && g[2..][12..] == [true, false, true];
    assert Parity([true]) && [true, true][..1] == [true];
    assert [true, false, true][..2] == [true, false] && [true, false][..1] == [true];
  }

  /** x + 1 divides the generator, so a round changes the parity of the register by the new bit. */
  lemma CycleParity(out: word, bit: bool)
    ensures Parity(Cycle(out, bit)) == (Parity(out) != bit)
  {
    var next := Cycle(out, bit);
    CycleDivides(out, bit);
    ParityAdds(Scale(out[0], GENERATOR), [false] + next);
    ParityAppends(out, [bit]);
    ParityAppends([false], next);
    assert Parity([bit]) == bit && !Parity([false]);
    GeneratorEven();
    ParityZeros(17);
  }

  /** The parity of the checksum is the parity of all message bits. */
  lemma {:induction false} ChecksumParity(bits: seq<bool>)
    ensures Parity(Feed(Zeros(16), bits)) == Parity(bits)
    decreases |bits|
  {
    if bits == [] {
      ParityZeros(16);
    } else {
      ChecksumParity(bits[..|bits| - 1]);
      CycleParity(Feed(Zeros(16), bits[..|bits| - 1]), bits[|bits| - 1]);
    }
  }

  lemma OddParity(a: seq<bool>, b: seq<bool>)
    requires |a| == |b| && |set i: nat | i < |a| && a[i] != b[i]| % 2 == 1
    ensures Parity(a) != Parity(b)
  {
    ParityAdds(a, b);
    ParityCounts(Add(a, b));
    assert (set i: nat | i < |a| && a[i] != b[i]) == set i: nat | i < |Add(a, b)| && Add(a, b)[i];
  }

  /** Any odd number of wrong bits changes the checksum. */
  lemma OddErrorsDetected(a: seq<byte>, b: seq<byte>)
    requires |a| == |b| && |set i: nat | i < |Bits(a)| && Bits(a)[i] != Bits(b)[i]| % 2 == 1
    ensures Crc(a) != Crc(b)
  {
    ChecksumParity(Bits(a));
    ChecksumParity(Bits(b));
    OddParity(Bits(a), Bits(b));
  }
}
