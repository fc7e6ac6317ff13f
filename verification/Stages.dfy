/** The butterfly stages on sequences, and why they turn permuted samples into the transform. */
module Stages {
  import opened Arithmetic
  import opened ComplexNumbers
  import opened Dft
  import opened BitReversal

  /** One stage over the whole array: within every block of 2h slots, slot q below h is paired with q + h. */
  function Butterfly(s: seq<Complex>, h: nat, w: Complex): (t: seq<Complex>)
    requires h > 0 && |s| % (2 * h) == 0
    ensures |t| == |s|
  {
    seq(|s|, a requires 0 <= a < |s| => ButterflyAt(s, h, w, a))
  }

  function ButterflyAt(s: seq<Complex>, h: nat, w: Complex, a: nat): Complex
    requires h > 0 && |s| % (2 * h) == 0 && a < |s|
  {
    PartnerInRange(|s|, h, a);
    var q := a % (2 * h);
    if q < h then Add(s[a], Mul(Pow(w, q), s[a + h])) else Sub(s[a - h], Mul(Pow(w, q - h), s[a]))
  }

  lemma PartnerInRange(n: nat, h: nat, a: nat)
    requires h > 0 && n % (2 * h) == 0 && a < n
    ensures if a % (2 * h) < h then a + h < n else a >= h
  {
    var m := 2 * h;
    assert a == m * (a / m) + a % m && n == m * (n / m);
    MulBound(m, n / m - a / m);
    assert m * (n / m - a / m) == n - a + a % m;
    MulBound(m, a / m);
  }

  /** Pow2(q) divides Pow2(p). */
  lemma {:induction false} Pow2Divides(p: nat, q: nat)
    requires q <= p
    ensures Pow2(p) % Pow2(q) == 0
    decreases p - q
  {
    if q == p {
      DivModUnique(Pow2(p), Pow2(q), 1, 0);
    } else {
      Pow2Divides(p, q + 1);
      var k := Pow2(p) / Pow2(q + 1);
      Doubles(Pow2(q), k);
      DivModUnique(Pow2(p), Pow2(q), 2 * k, 0);
    }
  }

  /** All stages up to block size 2^t; w(i) is the root of order 2^i. */
  function Butterflies(s: seq<Complex>, t: nat, w: nat -> Complex): (r: seq<Complex>)
    requires |s| % Pow2(t) == 0
    ensures |r| == |s|
    decreases t
  {
    if t == 0 then s
    else
      DivisibleByHalf(|s|, Pow2(t - 1));
      Butterfly(Butterflies(s, t - 1, w), Pow2(t - 1), w(t))
  }

  lemma ButterflyConcat(a: seq<Complex>, b: seq<Complex>, h: nat, w: Complex)
    requires h > 0 && |a| % (2 * h) == 0 && |b| % (2 * h) == 0
    ensures |a + b| % (2 * h) == 0
    ensures Butterfly(a + b, h, w) == Butterfly(a, h, w) + Butterfly(b, h, w)
  {
    hide Add, Mul, Sub;
    SumDivisible(|a|, |b|, 2 * h);
    var t := Butterfly(a, h, w) + Butterfly(b, h, w);
    forall i: nat | i < |a + b|
      ensures Butterfly(a + b, h, w)[i] == t[i]
    {
      if i < |a| {
        PartnerInRange(|a|, h, i);
      } else {
        ModShift(|a|, i - |a|, 2 * h);
        PartnerInRange(|b|, h, i - |a|);
      }
    }
  }

  /** Blocks do not interact: stages act on each half on its own. */
  lemma {:induction false} ButterfliesConcat(a: seq<Complex>, b: seq<Complex>, t: nat, w: nat -> Complex)
    requires |a| % Pow2(t) == 0 && |b| % Pow2(t) == 0
    ensures |a + b| % Pow2(t) == 0
    ensures Butterflies(a + b, t, w) == Butterflies(a, t, w) + Butterflies(b, t, w)
    decreases t
  {
    hide Butterfly;
    SumDivisible(|a|, |b|, Pow2(t));
    if t > 0 {
      var h := Pow2(t - 1);
      DivisibleByHalf(|a|, h);
      DivisibleByHalf(|b|, h);
      ButterfliesConcat(a, b, t - 1, w);
      ButterflyConcat(Butterflies(a, t - 1, w), Butterflies(b, t - 1, w), h, w(t));
    }
  }

  /** A tower of roots: w(0) is 1, w(1) is -1, and each w(i + 1) is a square root of w(i). */
  ghost predicate Tower(w: nat -> Complex) {
    && w(0) == ONE
    && w(1) == MINUS_ONE
    && forall i: nat :: Mul(w(i + 1), w(i + 1)) == w(i)
  }

  lemma {:induction false} TowerHalfTurn(w: nat -> Complex, t: nat)
    requires Tower(w) && t > 0
    ensures HalfTurn(w(t), Pow2(t - 1))
  {
    hide Mul;
    if t == 1 {
      PowOne(w(1));
    } else {
      TowerHalfTurn(w, t - 1);
      var h := Pow2(t - 2);
      PowAdd(w(t), h, h);
      PowOfProduct(w(t), w(t), h);
      assert Mul(w(t - 1 + 1), w(t - 1 + 1)) == w(t - 1);
    }
  }

  /** The fast stages, run over the bit-reversed samples, give the quadratic transform. */
  lemma {:induction false} StagesComputeTransform(x: seq<Complex>, p: nat, w: nat -> Complex)
    requires |x| == Pow2(p) && Tower(w)
    ensures |x| % Pow2(p) == 0
    ensures Butterflies(Permuted(x, p), p, w) == Transform(x, w(p))
    decreases p
  {
    Pow2Divides(p, p);
    if p == 0 {
      TransformOfOne(x, w(0));
    } else {
      var h, e, o := Pow2(p - 1), Evens(x), Odds(x);
      StagesComputeTransform(e, p - 1, w);
      StagesComputeTransform(o, p - 1, w);
      PermutedSplit(x, p);
      ButterfliesConcat(Permuted(e, p - 1), Permuted(o, p - 1), p - 1, w);
      LastStage(x, h, w(p - 1), w(p), p, w);
    }
  }

  lemma LastStage(x: seq<Complex>, h: nat, ww: Complex, w: Complex, p: nat, t: nat -> Complex)
    requires p > 0 && h == Pow2(p - 1) && |x| == 2 * h && Tower(t) && w == t(p) && ww == t(p - 1)
    ensures |x| % (2 * h) == 0
    ensures Butterfly(Transform(Evens(x), ww) + Transform(Odds(x), ww), h, w) == Transform(x, w)
  {
    hide Add, Mul, Sub;
    var E, O := Transform(Evens(x), ww), Transform(Odds(x), ww);
    TowerHalfTurn(t, p);
    assert Mul(t(p - 1 + 1), t(p - 1 + 1)) == t(p - 1);
    DivModUnique(|x|, 2 * h, 1, 0);
    forall a: nat | a < |x|
      ensures Butterfly(E + O, h, w)[a] == Transform(x, w)[a]
    {
      DivModUnique(a, 2 * h, 0, a);
      TransformSplit(x, w, h, a % h);
      if a < h {
        DivModUnique(a, h, 0, a);
      } else {
        DivModUnique(a, h, 1, a - h);
      }
    }
  }
}
