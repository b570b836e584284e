/** Polynomials over GF(2) as coefficient sequences, highest power first; addition is xor. */
module Polynomials {

  type Poly = seq<bool>

  function Zeros(n: nat): (z: Poly)
    ensures |z| == n && forall i :: 0 <= i < n ==> !z[i]
  {
    seq(n, _ => false)
  }

  function Add(a: Poly, b: Poly): (c: Poly)
    requires |a| == |b|
    ensures |c| == |a| && forall i :: 0 <= i < |a| ==> c[i] == (a[i] != b[i])
  {
    seq(|a|, i requires 0 <= i < |a| => a[i] != b[i])
  }

  /** `p` if `bit`, otherwise the zero polynomial of the same length. */
  function Scale(bit: bool, p: Poly): (q: Poly)
    ensures |q| == |p|
  {
    if bit then p else Zeros(|p|)
  }

  /** The product of `q` and the non-empty polynomial `p`, by Horner's rule. */
  function Mul(q: Poly, p: Poly): (r: Poly)
    requires |p| > 0
    ensures |r| == |q| + |p| - 1
  {
    if q == [] then Zeros(|p| - 1)
    else
      var n := |q| - 1;
      Add(Mul(q[..n], p) + [false], Zeros(n) + Scale(q[n], p))
  }

  lemma MulSnoc(q: Poly, bit: bool, p: Poly)
    requires |p| > 0
    ensures Mul(q + [bit], p) == Add(Mul(q, p) + [false], Zeros(|q|) + Scale(bit, p))
  {
    assert (q + [bit])[..|q|] == q;
  }

  /** The pairs of coefficients that contribute to coefficient `i` of a product. */
  function Terms(q: Poly, p: Poly, i: nat): set<nat> {
    set j: nat | j < |q| && j <= i && i - j < |p| && q[j] && p[i - j]
  }

  lemma TermsSnoc(q: Poly, bit: bool, p: Poly, i: nat)
    ensures |Terms(q + [bit], p, i)| == |Terms(q, p, i)| + if bit && |q| <= i && i - |q| < |p| && p[i - |q|] then 1 else 0
  {
    var last := if bit && |q| <= i && i - |q| < |p| && p[i - |q|] then {|q|} else {};
    assert Terms(q + [bit], p, i) == Terms(q, p, i) + last;
  }

  lemma MulNothing(p: Poly)
    requires |p| > 0
    ensures Mul([], p) == Zeros(|p| - 1)
  {
  }

  lemma ScaleAt(bit: bool, p: Poly, n: nat, i: nat)
    requires i < n + |p|
    ensures (Zeros(n) + Scale(bit, p))[i] <==> bit && n <= i && p[i - n]
  {
  }

  /** Horner's rule computes the product: each coefficient is the sum of the products of coefficients, modulo 2. */
  lemma {:induction false} MulCoefficient(q: Poly, p: Poly, i: nat)
    requires |p| > 0 && i < |q| + |p| - 1
    ensures Mul(q, p)[i] <==> |set j: nat | j < |q| && j <= i && i - j < |p| && q[j] && p[i - j]| % 2 == 1
    decreases |q|
  {
    hide Mul, Scale;
    assert Terms(q, p, i) == set j: nat | j < |q| && j <= i && i - j < |p| && q[j] && p[i - j];
    if q == [] {
      MulNothing(p);
    } else {
      var n, init := |q| - 1, q[..|q| - 1];
      assert q == init + [q[n]];
      MulSnoc(init, q[n], p);
      TermsSnoc(init, q[n], p, i);
      ScaleAt(q[n], p, n, i);
      if i < n + |p| - 1 {
        MulCoefficient(init, p, i);
        assert Terms(init, p, i) == set j: nat | j < |init| && j <= i && i - j < |p| && init[j] && p[i - j];
      } else {
        assert Terms(init, p, i) == {};
      }
    }
  }

  function Parity(a: Poly): bool {
    if a == [] then false else Parity(a[..|a| - 1]) != a[|a| - 1]
  }

  function Ones(a: Poly): set<nat> {
    set i: nat | i < |a| && a[i]
  }

  lemma OnesSnoc(a: Poly, bit: bool)
    ensures |Ones(a + [bit])| == |Ones(a)| + if bit then 1 else 0
  {
    assert Ones(a + [bit]) == Ones(a) + if bit then {|a|} else {};
  }

  lemma OnesOfNothing()
    ensures Ones([]) == {}
  {
  }

  lemma OnesAre(a: Poly)
    ensures Ones(a) == set i: nat | i < |a| && a[i]
  {
  }

  /** Whether the number of coefficients that are 1 is odd. */
  lemma {:induction false} ParityCounts(a: Poly)
    ensures Parity(a) <==> |set i: nat | i < |a| && a[i]| % 2 == 1
    decreases |a|
  {
    hide Ones;
    OnesAre(a);
    if a == [] {
      OnesOfNothing();
    } else {
      var n := |a| - 1;
      ParityCounts(a[..n]);
      OnesAre(a[..n]);
      assert a == a[..n] + [a[n]];
      OnesSnoc(a[..n], a[n]);
    }
  }

  lemma {:induction false} ParityAppends(a: Poly, b: Poly)
    ensures Parity(a + b) == (Parity(a) != Parity(b))
    decreases |b|
  {
    if b == [] {
      assert a + b == a;
    } else {
      ParityAppends(a, b[..|b| - 1]);
      assert (a + b)[..|a + b| - 1] == a + b[..|b| - 1];
    }
  }

  lemma {:induction false} ParityAdds(a: Poly, b: Poly)
    requires |a| == |b|
    ensures Parity(Add(a, b)) == (Parity(a) != Parity(b))
    decreases |b|
  {
    if a != [] {
      var n := |a| - 1;
      ParityAdds(a[..n], b[..n]);
      assert Add(a, b)[..n] == Add(a[..n], b[..n]);
    }
  }

  lemma {:induction false} ParityZeros(n: nat)
    ensures !Parity(Zeros(n))
  {
    if n > 0 {
      ParityZeros(n - 1);
      assert Zeros(n)[..n - 1] == Zeros(n - 1);
    }
  }

  lemma AddRearranges(a: Poly, b: Poly, c: Poly, d: Poly)
    requires |a| == |b| == |c| == |d|
    ensures Add(Add(a, b), Add(c, d)) == Add(Add(a, c), Add(b, d))
  {
  }

  lemma AddAppends(a: Poly, b: Poly)
    requires |a| == |b|
    ensures Add(a, b) + [false] == Add(a + [false], b + [false])
  {
  }

  lemma ScaleAdds(n: nat, x: bool, y: bool, p: Poly)
    ensures Zeros(n) + Scale(x != y, p) == Add(Zeros(n) + Scale(x, p), Zeros(n) + Scale(y, p))
  {
  }

  /** Multiplication distributes over addition. */
  lemma {:induction false} MulDistributes(a: Poly, b: Poly, p: Poly)
    requires |a| == |b| && |p| > 0
    ensures Mul(Add(a, b), p) == Add(Mul(a, p), Mul(b, p))
    decreases |a|
  {
    hide Scale;
    if a == [] {
      assert Add(Zeros(|p| - 1), Zeros(|p| - 1)) == Zeros(|p| - 1);
    } else {
      var n := |a| - 1;
      MulDistributes(a[..n], b[..n], p);
      assert Add(a, b)[..n] == Add(a[..n], b[..n]);
      AddAppends(Mul(a[..n], p), Mul(b[..n], p));
      ScaleAdds(n, a[n], b[n], p);
      AddRearranges(Mul(a[..n], p) + [false], Mul(b[..n], p) + [false], Zeros(n) + Scale(a[n], p), Zeros(n) + Scale(b[n], p));
    }
  }

  lemma ScaledMonic(bit: bool, p: Poly)
    requires |p| > 0 && p[0]
    ensures Scale(bit, p)[0] == bit
  {
  }

  lemma LeadingAfterZeros(n: nat, last: Poly, i: nat)
    requires i <= n && |last| > 0
    ensures (Zeros(n) + last)[i] == (i == n && last[0])
  {
  }

  /** The leading coefficients of a product with a monic polynomial, one factor coefficient at a time. */
  lemma MulLeading(q: Poly, p: Poly, i: nat)
    requires |p| > 0 && p[0] && i < |q|
    ensures var n := |q| - 1;
            Mul(q, p)[i] == ((Mul(q[..n], p) + [false])[i] != (i == n && q[n]))
  {
    hide Mul, Scale, Add, Zeros;
    var n := |q| - 1;
    assert q == q[..n] + [q[n]];
    MulSnoc(q[..n], q[n], p);
    ScaledMonic(q[n], p);
    LeadingAfterZeros(n, Scale(q[n], p), i);
  }

  lemma {:induction false} ZeroTimes(q: Poly, p: Poly)
    requires |p| > 0 && forall i :: 0 <= i < |q| ==> !q[i]
    ensures Mul(q, p) == Zeros(|q| + |p| - 1)
    decreases |q|
  {
    if q != [] {
      ZeroTimes(q[..|q| - 1], p);
    }
  }

  /** A product with a monic polynomial of degree m whose coefficients from x^m up all vanish is zero. */
  lemma {:induction false} NoSmallMultiples(q: Poly, p: Poly)
    requires |p| > 0 && p[0] && forall i :: 0 <= i < |q| ==> !Mul(q, p)[i]
    ensures forall i :: 0 <= i < |q| ==> !q[i]
    decreases |q|
  {
    hide Mul;
    if q != [] {
      var n := |q| - 1;
      MulLeading(q, p, n);
      forall i | 0 <= i < n
        ensures !Mul(q[..n], p)[i]
      {
        MulLeading(q, p, i);
      }
      NoSmallMultiples(q[..n], p);
      ZeroTimes(q[..n], p);
      assert q == q[..n] + [q[n]];
      assert Mul(q, p)[n] == q[n];
    }
  }

  /** `m = q * p + r` as polynomials, with deg r < deg p: `r` is a remainder of `m`. */
  ghost predicate Divides(m: Poly, q: Poly, p: Poly, r: Poly)
    requires |p| > 0 && |q| == |m| && |r| == |p| - 1
  {
    Zeros(|p| - 1) + m == Add(Mul(q, p), Zeros(|m|) + r)
  }

  /** Quotient and remainder are unique. */
  lemma DivisionUnique(m: Poly, p: Poly, q: Poly, r: Poly, q': Poly, r': Poly)
    requires |p| > 0 && p[0] && |q| == |q'| == |m| && |r| == |r'| == |p| - 1
    requires Divides(m, q, p, r) && Divides(m, q', p, r')
    ensures q == q' && r == r'
  {
    hide Mul;
    var n := |m|;
    var dq := Add(q, q');
    MulDistributes(q, q', p);
    var s := Zeros(|p| - 1) + m;
    forall i | 0 <= i < n + |p| - 1
      ensures Mul(dq, p)[i] == ((Zeros(n) + r)[i] != (Zeros(n) + r')[i])
    {
      assert s[i] == (Mul(q, p)[i] != (Zeros(n) + r)[i]);
      assert s[i] == (Mul(q', p)[i] != (Zeros(n) + r')[i]);
    }
    NoSmallMultiples(dq, p);
    ZeroTimes(dq, p);
    forall i | 0 <= i < n
      ensures q[i] == q'[i]
    {
      assert !dq[i];
    }
    forall i | 0 <= i < |p| - 1
      ensures r[i] == r'[i]
    {
      assert !Mul(dq, p)[n + i];
      assert (Zeros(n) + r)[n + i] == r[i] && (Zeros(n) + r')[n + i] == r'[i];
    }
  }
}
