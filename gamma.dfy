/** The brightness curve of the driver: an 8-bit logical brightness is
    split into a 3-bit exponent and a 5-bit mantissa (n = 32*e + m) and
    mapped to (2^e - 1) + floor((2^e * (m + 1) + 15) / 32), a
    piecewise-linear approximation of an exponential curve. */
module Gamma {

  /** 1 << e */
  function Pow2(e: nat): (r: nat)
    ensures r >= 1
  {
    if e == 0 then 1 else 2 * Pow2(e - 1)
  }

  /** The curve itself, on every non-negative input (the driver only
      fails on negative ones, where the shift count is negative). */
  function Degamma(n: nat): nat
  {
    Curve(n / 32, n % 32)
  }

  /** The curve on an exponent e and a mantissa m. */
  function Curve(e: nat, m: nat): nat
  {
    (Pow2(e) - 1) + (Pow2(e) * (m + 1) + 15) / 32
  }

  lemma DivMod32(e: nat, m: nat)
    requires m < 32
    ensures (32 * e + m) / 32 == e
    ensures (32 * e + m) % 32 == m
  {
  }

  /** floor((p * (m + 1) + 15) / 32) for a block of slope p lies in 0..p. */
  lemma MantissaTerm(p: nat, m: nat)
    requires m < 32
    ensures 0 <= (p * (m + 1) + 15) / 32 <= p
    ensures m == 31 ==> (p * (m + 1) + 15) / 32 == p
    ensures m < 31 ==> (p * (m + 1) + 15) / 32 <= (p * (m + 2) + 15) / 32
  {
    assert p * (m + 1) <= p * 32;
    assert (p * 32 + 15) / 32 == p;
    if m < 31 {
      assert p * (m + 1) <= p * (m + 2);
    }
  }

  lemma Pow2Small(e: nat)
    requires e <= 8
    ensures Pow2(e) <= 256
    ensures e <= 4 ==> Pow2(e) <= 16
    ensures e == 5 ==> Pow2(e) == 32
    ensures e == 6 ==> Pow2(e) == 64
    ensures e == 7 ==> Pow2(e) == 128
    ensures e == 8 ==> Pow2(e) == 256
  {
    assert Pow2(0) == 1;
    assert Pow2(1) == 2;
    assert Pow2(2) == 4;
    assert Pow2(3) == 8;
    assert Pow2(4) == 16;
    assert Pow2(5) == 32;
    assert Pow2(6) == 64;
    assert Pow2(7) == 128;
    assert Pow2(8) == 256;
  }

  /** Degamma on an input given by its split n = 32 * e + m. */
  lemma DegammaAt(n: nat, e: nat, m: nat)
    requires m < 32 && n == 32 * e + m
    ensures Degamma(n) == Curve(e, m)
  {
    DivMod32(e, m);
  }

  /** Within block e the curve stays between 2^e - 1 and 2^(e+1) - 1. */
  lemma DegammaBlockBound(e: nat, m: nat)
    requires m < 32
    ensures Pow2(e) - 1 <= Degamma(32 * e + m) <= Pow2(e + 1) - 1
  {
    DegammaAt(32 * e + m, e, m);
    MantissaTerm(Pow2(e), m);
  }

  /** Maps 0..255 into 0..255. */
  lemma DegammaRange(n: nat)
    requires n <= 255
    ensures Degamma(n) <= 255
  {
    var e, m := n / 32, n % 32;
    assert n == 32 * e + m;
    DegammaBlockBound(e, m);
    Pow2Small(e + 1);
  }

  /** The two fixed end points of the curve. */
  lemma DegammaEndpoints()
    ensures Degamma(0) == 0
    ensures Degamma(255) == 255
  {
    DegammaAt(0, 0, 0);
    DegammaBlockEnd(7);
    Pow2Small(8);
  }

  /** The last input of block e lands exactly on 2^(e+1) - 1. */
  lemma DegammaBlockEnd(e: nat)
    ensures Degamma(32 * e + 31) == Pow2(e + 1) - 1
  {
    DegammaAt(32 * e + 31, e, 31);
    MantissaTerm(Pow2(e), 31);
  }

  /** The mantissa term at the start of block j is 2^j / 32. */
  lemma BlockStartTerm(j: nat)
    requires j <= 7
    ensures (Pow2(j) * (0 + 1) + 15) / 32 == Pow2(j) / 32
  {
    Pow2Small(j);
    var p := Pow2(j);
    assert p * (0 + 1) == p;
    if j <= 4 {
      assert p <= 16;
    } else {
      assert p == 32 || p == 64 || p == 128;
    }
  }

  /** The first input of block j lands on 2^j - 1 + 2^j / 32. */
  lemma DegammaBlockStart(j: nat)
    requires j <= 7
    ensures Degamma(32 * j) == Pow2(j) - 1 + Pow2(j) / 32
  {
    DegammaAt(32 * j, j, 0);
    BlockStartTerm(j);
  }

  /** The two sides of the boundary between blocks j - 1 and j meet for
      j <= 4; from block 5 on the curve jumps there by 2^j / 32. */
  lemma DegammaBlockJoin(j: nat)
    requires 1 <= j <= 7
    ensures Degamma(32 * j) == Degamma(32 * j - 1) <==> j <= 4
  {
    DegammaBlockStart(j);
    DegammaAt(32 * j - 1, j - 1, 31);
    MantissaTerm(Pow2(j - 1), 31);
    assert Pow2(j) == 2 * Pow2(j - 1);
    assert Degamma(32 * j - 1) == Pow2(j) - 1;
    Pow2Small(j);
  }

  /** One step to the right never lowers the curve. */
  lemma DegammaStep(n: nat)
    ensures Degamma(n) <= Degamma(n + 1)
  {
    var e, m := n / 32, n % 32;
    assert n == 32 * e + m;
    DegammaAt(n, e, m);
    if m < 31 {
      DegammaAt(n + 1, e, m + 1);
      MantissaTerm(Pow2(e), m);
    } else {
      DegammaBlockEnd(e);
      assert n + 1 == 32 * (e + 1) + 0;
      DegammaBlockBound(e + 1, 0);
    }
  }

  /** Against a hand-written reference: the first and the last output of
      each of the eight blocks. */
  lemma DegammaReferencePoints(e: nat)
    requires e <= 7
    ensures Degamma(32 * e) == [0, 1, 3, 7, 15, 32, 65, 131][e]
    ensures Degamma(32 * e + 31) == [1, 3, 7, 15, 31, 63, 127, 255][e]
  {
    DegammaBlockStart(e);
    DegammaBlockEnd(e);
    Pow2Small(e);
    Pow2Small(e + 1);
  }

  /** Non-decreasing over the whole domain. */
  lemma {:induction false} DegammaMonotone(a: nat, b: nat)
    requires a <= b
    ensures Degamma(a) <= Degamma(b)
    decreases b - a
  {
    if a < b {
      DegammaStep(a);
      DegammaMonotone(a + 1, b);
    }
  }

  /** On a byte: the curve's two facts that colour encoding needs, kept
      together so each channel costs one call. */
  lemma DegammaByte(n: nat)
    requires n <= 255
    ensures Degamma(n) <= n
    ensures n == 0 ==> Degamma(n) == 0
    ensures n == 255 ==> Degamma(n) == 255
  {
    DegammaBelowIdentity(n);
    DegammaEndpoints();
  }

  /** The curve never rises above the identity on 0..255: it only darkens. */
  lemma DegammaBelowIdentity(n: nat)
    requires n <= 255
    ensures Degamma(n) <= n
  {
    var e, m := n / 32, n % 32;
    assert n == 32 * e + m;
    DegammaAt(n, e, m);
    Pow2Small(e);
    MantissaTerm(Pow2(e), m);
  }
}
