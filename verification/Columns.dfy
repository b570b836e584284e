/**
  One display column. The source packs sixteen dots in a uint16_t; here the word is the set of the
  positions of its one bits, so that `|`, `& ~`, `^`, `1 << i` and popcount are union, difference,
  symmetric difference, a singleton and a count.
 */
module Columns {

  const HEIGHT: nat := 16

  type Column = bits: set<nat> | forall i :: i in bits ==> i < HEIGHT

  /** How many of the `n` lowest bits differ between two words. */
  function Differing(a: Column, b: Column, n: nat): nat
    requires n <= HEIGHT
  {
    if n == 0 then 0 else Differing(a, b, n - 1) + if (n - 1 in a) == (n - 1 in b) then 0 else 1
  }

  /** `__builtin_popcount(a ^ b)`: how many dots differ. */
  function Flips(a: Column, b: Column): (n: nat) {
    Differing(a, b, HEIGHT)
  }

  lemma {:induction false} NoneDiffering(a: Column, b: Column, n: nat)
    requires n <= HEIGHT
    ensures Differing(a, b, n) == 0 <==> forall i :: 0 <= i < n ==> (i in a <==> i in b)
  {
    if n > 0 {
      NoneDiffering(a, b, n - 1);
    }
  }

  /** No dot differs exactly when the two words are the same. */
  lemma FlipsZero(a: Column, b: Column)
    ensures Flips(a, b) == 0 <==> a == b
  {
    NoneDiffering(a, b, HEIGHT);
  }

  lemma {:induction false} DifferingTriangle(a: Column, b: Column, c: Column, n: nat)
    requires n <= HEIGHT
    ensures Differing(a, c, n) <= Differing(a, b, n) + Differing(b, c, n)
  {
    if n > 0 {
      DifferingTriangle(a, b, c, n - 1);
    }
  }

  /** Dots changed from `a` to `c` were changed on the way from `a` to `b` or from `b` to `c`. */
  lemma FlipsTriangle(a: Column, b: Column, c: Column)
    ensures Flips(a, c) <= Flips(a, b) + Flips(b, c)
  {
    DifferingTriangle(a, b, c, HEIGHT);
  }

  lemma {:induction false} DifferingSymmetric(a: Column, b: Column, n: nat)
    requires n <= HEIGHT
    ensures Differing(a, b, n) == Differing(b, a, n)
  {
    if n > 0 {
      DifferingSymmetric(a, b, n - 1);
    }
  }

  lemma FlipsSymmetric(a: Column, b: Column)
    ensures Flips(a, b) == Flips(b, a)
  {
    DifferingSymmetric(a, b, HEIGHT);
  }

  /** The bits among the `n` lowest in which two words differ. */
  function DifferingBits(a: Column, b: Column, n: nat): set<nat> {
    set i: nat | i < n && (i in a) != (i in b)
  }

  lemma {:induction false} DifferingIsCardinality(a: Column, b: Column, n: nat)
    requires n <= HEIGHT
    ensures Differing(a, b, n) == |DifferingBits(a, b, n)|
  {
    if n > 0 {
      DifferingIsCardinality(a, b, n - 1);
      var before := DifferingBits(a, b, n - 1);
      assert DifferingBits(a, b, n) == if (n - 1 in a) == (n - 1 in b) then before else before + {n - 1};
    }
  }

  /** The popcount of the exclusive or is the number of positions at which exactly one of the words has a dot. */
  lemma FlipsIsCardinality(a: Column, b: Column)
    ensures Flips(a, b) == |(a - b) + (b - a)|
  {
    DifferingIsCardinality(a, b, HEIGHT);
    assert DifferingBits(a, b, HEIGHT) == (a - b) + (b - a);
  }
}
