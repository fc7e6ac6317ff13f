/** The quadratic transform that is the meaning of an FFT, and the recursion it satisfies. */
module Dft {
  import opened ComplexNumbers

  function Pow2(p: nat): (n: nat)
    ensures n > 0
  {
    if p == 0 then 1 else 2 * Pow2(p - 1)
  }

  /** The sum of x[j] * w^(j*k) for j below n. */
  function DftSum(x: seq<Complex>, w: Complex, k: nat, n: nat): Complex
    requires n <= |x|
  {
    if n == 0 then ZERO else Add(DftSum(x, w, k, n - 1), Mul(x[n - 1], Pow(w, (n - 1) * k)))
  }

  /** Slot k of the transform is the sum of x[j] * w^(j*k) over all of x. */
  function Transform(x: seq<Complex>, w: Complex): (y: seq<Complex>)
    ensures |y| == |x|
  {
    seq(|x|, k requires 0 <= k => DftSum(x, w, k, |x|))
  }

  /** The value at u of the polynomial whose coefficients are the first n of x. */
  function Eval(x: seq<Complex>, u: Complex, n: nat): Complex
    requires n <= |x|
  {
    if n == 0 then ZERO else Add(Eval(x, u, n - 1), Mul(x[n - 1], Pow(u, n - 1)))
  }

  lemma {:induction false} SumIsEval(x: seq<Complex>, w: Complex, k: nat, n: nat)
    requires n <= |x|
    ensures DftSum(x, w, k, n) == Eval(x, Pow(w, k), n)
  {
    hide Add, Mul;
    if n > 0 {
      SumIsEval(x, w, k, n - 1);
      PowPow(w, n - 1, k);
    }
  }

  function Evens(x: seq<Complex>): (y: seq<Complex>)
    ensures |y| == |x| / 2
  {
    seq(|x| / 2, i requires 0 <= i < |x| / 2 => x[2 * i])
  }

  function Odds(x: seq<Complex>): (y: seq<Complex>)
    ensures |y| == |x| / 2
  {
    seq(|x| / 2, i requires 0 <= i < |x| / 2 => x[2 * i + 1])
  }

  lemma EvalStep(x: seq<Complex>, u: Complex, n: nat)
    requires n < |x|
    ensures Eval(x, u, n + 1) == Add(Eval(x, u, n), Mul(x[n], Pow(u, n)))
  {
    hide Add, Mul;
  }

  lemma EvalNothing(x: seq<Complex>, y: seq<Complex>, z: seq<Complex>, u: Complex, v: Complex)
    ensures Eval(x, u, 0) == Add(Eval(y, v, 0), Mul(u, Eval(z, v, 0)))
  {
    AddZero(ZERO, u);
  }

  /** An even power of u, and the odd one after it, by powers of its square. */
  lemma SquarePowers(u: Complex, k: nat, c: Complex)
    ensures Pow(u, 2 * k) == Pow(Mul(u, u), k)
    ensures Mul(c, Pow(u, 2 * k + 1)) == Mul(u, Mul(c, Pow(Mul(u, u), k)))
  {
    hide Mul;
    PowOfProduct(u, u, k);
    PowAdd(u, k, k);
    MulAssoc(c, Pow(u, 2 * k), u);
    MulComm(Mul(c, Pow(u, 2 * k)), u);
  }

  /** Danielson and Lanczos: p(u) == even(u*u) + u * odd(u*u). */
  lemma {:induction false} EvalSplit(x: seq<Complex>, u: Complex, h: nat)
    requires 2 * h <= |x|
    ensures Eval(x, u, 2 * h) == Add(Eval(Evens(x), Mul(u, u), h), Mul(u, Eval(Odds(x), Mul(u, u), h)))
  {
    hide *;
    var e, o, uu := Evens(x), Odds(x), Mul(u, u);
    if h == 0 {
      EvalNothing(x, e, o, u, uu);
    } else {
      var k := h - 1;
      EvalSplit(x, u, k);
      EvensAndOdds(x, k);
      EvalStep(x, u, 2 * k);
      EvalStep(x, u, 2 * k + 1);
      EvalStep(e, uu, k);
      EvalStep(o, uu, k);
      SquarePowers(u, k, x[2 * k + 1]);
      var te, to := Mul(e[k], Pow(uu, k)), Mul(o[k], Pow(uu, k));
      MulDistrib(u, Eval(o, uu, k), to);
      AddSwap(Eval(e, uu, k), Mul(u, Eval(o, uu, k)), te, Mul(u, to));
    }
  }

  lemma EvensAndOdds(x: seq<Complex>, k: nat)
    requires 2 * k + 1 < |x|
    ensures Evens(x)[k] == x[2 * k] && Odds(x)[k] == x[2 * k + 1]
  {
  }

  lemma AddSwap(a: Complex, b: Complex, c: Complex, d: Complex)
    ensures Add(Add(Add(a, b), c), d) == Add(Add(a, c), Add(b, d))
  {
  }

  /** w is a primitive root of order 2h in the sense the transform needs: its h-th power is -1. */
  ghost predicate HalfTurn(w: Complex, h: nat) {
    Pow(w, h) == MINUS_ONE
  }

  /** The recursion step: a transform of length 2h from the transforms of the even and odd halves. */
  lemma TransformSplit(x: seq<Complex>, w: Complex, h: nat, k: nat)
    requires |x| == 2 * h && HalfTurn(w, h) && k < h
    ensures Transform(x, w)[k]
         == Add(Transform(Evens(x), Mul(w, w))[k], Mul(Pow(w, k), Transform(Odds(x), Mul(w, w))[k]))
    ensures Transform(x, w)[k + h]
         == Sub(Transform(Evens(x), Mul(w, w))[k], Mul(Pow(w, k), Transform(Odds(x), Mul(w, w))[k]))
  {
    hide Add, Mul, Neg, Sub;
    var u, ww := Pow(w, k), Mul(w, w);
    var e, o := Evens(x), Odds(x);
    SumIsEval(e, ww, k, h);
    SumIsEval(o, ww, k, h);
    assert Pow(ww, k) == Mul(u, u) by { PowOfProduct(w, w, k); }
    SumIsEval(x, w, k, 2 * h);
    EvalSplit(x, u, h);
    assert Pow(w, k + h) == Neg(u) by {
      PowAdd(w, k, h);
      MulMinusOne(u);
    }
    SumIsEval(x, w, k + h, 2 * h);
    EvalSplit(x, Neg(u), h);
    MulNeg(u, u);
    MulNeg(u, Eval(o, Mul(u, u), h));
    AddNeg(Eval(e, Mul(u, u), h), Mul(u, Eval(o, Mul(u, u), h)));
  }

  lemma AddNeg(a: Complex, b: Complex)
    ensures Add(a, Neg(b)) == Sub(a, b)
  {
  }

  // ---------------------------------------------------------------- inversion

  lemma {:induction false} EvalConcat(x: seq<Complex>, u: Complex, h: nat, n: nat)
    requires h + n <= |x|
    ensures Eval(x, u, h + n) == Add(Eval(x[..h], u, h), Mul(Pow(u, h), Eval(x[h..], u, n)))
  {
    hide Add, Mul;
    if n == 0 {
      EvalPrefix(x, x[..h], u, h);
      AddZero(Eval(x[..h], u, h), Pow(u, h));
    } else {
      EvalConcat(x, u, h, n - 1);
      var c := x[h + n - 1];
      assert x[h..][n - 1] == c;
      PowAdd(u, h, n - 1);
      var a, b, p := Eval(x[..h], u, h), Eval(x[h..], u, n - 1), Pow(u, h);
      assert Mul(c, Pow(u, h + n - 1)) == Mul(p, Mul(c, Pow(u, n - 1))) by {
        MulAssoc(c, p, Pow(u, n - 1));
        MulComm(c, p);
        MulAssoc(p, c, Pow(u, n - 1));
      }
      MulDistrib(p, b, Mul(c, Pow(u, n - 1)));
      AddAssoc(a, Mul(p, b), Mul(p, Mul(c, Pow(u, n - 1))));
    }
  }

  lemma AddAssoc(a: Complex, b: Complex, c: Complex)
    ensures Add(Add(a, b), c) == Add(a, Add(b, c))
  {
  }

  lemma AddZero(a: Complex, b: Complex)
    ensures Add(a, Mul(b, ZERO)) == a
  {
  }

  lemma {:induction false} EvalPrefix(x: seq<Complex>, y: seq<Complex>, u: Complex, n: nat)
    requires n <= |x| && n <= |y| && forall i :: 0 <= i < n ==> x[i] == y[i]
    ensures Eval(x, u, n) == Eval(y, u, n)
  {
    if n > 0 {
      EvalPrefix(x, y, u, n - 1);
    }
  }

  /** If x[k] + s*y[k] is 2 * t[k] * v^k for every k, then x(u) + s*y(u) is 2 * t(v*u). */
  lemma {:induction false} EvalFold(x: seq<Complex>, y: seq<Complex>, t: seq<Complex>,
                                    u: Complex, v: Complex, n: nat, s: Complex)
    requires n <= |x| && n <= |y| && n <= |t|
    requires forall k :: 0 <= k < n ==> Add(x[k], Mul(s, y[k])) == Mul(TWO, Mul(t[k], Pow(v, k)))
    ensures Add(Eval(x, u, n), Mul(s, Eval(y, u, n))) == Mul(TWO, Eval(t, Mul(v, u), n))
  {
    hide Add, Mul, TWO;
    var two := TWO;
    if n == 0 {
      assert Add(ZERO, Mul(s, ZERO)) == ZERO by { AddZero(ZERO, s); }
      assert Mul(two, ZERO) == ZERO by { MulZero(two); }
    } else {
      EvalFold(x, y, t, u, v, n - 1, s);
      var X, Y, T, p := Eval(x, u, n - 1), Eval(y, u, n - 1), Eval(t, Mul(v, u), n - 1), Pow(u, n - 1);
      var a, b, c := x[n - 1], y[n - 1], t[n - 1];
      assert Add(Mul(a, p), Mul(s, Mul(b, p))) == Mul(two, Mul(c, Pow(Mul(v, u), n - 1))) by {
        MulAssoc(s, b, p);
        MulDistrib(p, a, Mul(s, b));
        MulComm(p, a);
        MulComm(p, Mul(s, b));
        MulComm(p, Add(a, Mul(s, b)));
        MulAssoc(two, Mul(c, Pow(v, n - 1)), p);
        MulAssoc(c, Pow(v, n - 1), p);
        PowOfProduct(v, u, n - 1);
      }
      MulDistrib(s, Y, Mul(b, p));
      AddExchange(X, Mul(a, p), Mul(s, Y), Mul(s, Mul(b, p)));
      MulDistrib(two, T, Mul(c, Pow(Mul(v, u), n - 1)));
    }
  }

  lemma MulZero(a: Complex)
    ensures Mul(a, ZERO) == ZERO
  {
  }

  lemma AddExchange(a: Complex, b: Complex, c: Complex, d: Complex)
    ensures Add(Add(a, b), Add(c, d)) == Add(Add(a, c), Add(b, d))
  {
  }

  lemma DoubleScale(n: nat, a: Complex)
    ensures Mul(TWO, Scale(n, a)) == Scale(2 * n, a)
  {
  }

  /** The two combinations of a butterfly's outputs that give its inputs back. */
  lemma Unbutterfly(e: Complex, t: Complex)
    ensures Add(Add(e, t), Mul(ONE, Sub(e, t))) == Mul(TWO, e)
    ensures Add(Add(e, t), Mul(MINUS_ONE, Sub(e, t))) == Mul(TWO, t)
  {
  }

  /** Roots w and v of order 2^p that are each other's inverse; for p == 0 both are 1. */
  ghost predicate InverseRoots(w: Complex, v: Complex, p: nat) {
    && Mul(w, v) == ONE
    && if p == 0 then w == ONE else HalfTurn(w, Pow2(p - 1)) && HalfTurn(v, Pow2(p - 1))
  }

  lemma SquareHalfTurn(w: Complex, p: nat)
    requires p > 0 && HalfTurn(w, Pow2(p - 1))
    ensures Pow(Mul(w, w), Pow2(p - 1)) == ONE
    ensures if p == 1 then Mul(w, w) == ONE else HalfTurn(Mul(w, w), Pow2(p - 2))
  {
    hide Mul;
    MulMinusOne(MINUS_ONE);
    PowOfProduct(w, w, Pow2(p - 1));
    if p == 1 {
      PowOne(w);
    } else {
      PowOfProduct(w, w, Pow2(p - 2));
      PowAdd(w, Pow2(p - 2), Pow2(p - 2));
    }
  }

  lemma InverseRootsHalve(w: Complex, v: Complex, p: nat)
    requires p > 0 && InverseRoots(w, v, p)
    ensures InverseRoots(Mul(w, w), Mul(v, v), p - 1)
    ensures Pow(Mul(v, v), Pow2(p - 1)) == ONE
  {
    hide Mul;
    MulSwap(w, w, v, v);
    MulOne(ONE);
    SquareHalfTurn(w, p);
    SquareHalfTurn(v, p);
  }

  /** Even slots of the second transform: the odd-indexed input has cancelled. */
  lemma SecondTransformEven(x: seq<Complex>, w: Complex, v: Complex, p: nat, m: nat)
    requires p > 0 && |x| == Pow2(p) && InverseRoots(w, v, p) && m < Pow2(p - 1)
    ensures Transform(Transform(x, w), v)[2 * m]
         == Mul(TWO, Transform(Transform(Evens(x), Mul(w, w)), Mul(v, v))[m])
  {
    hide Add, Mul, Sub, TWO;
    var h, X, E := Pow2(p - 1), Transform(x, w), Transform(Evens(x), Mul(w, w));
    var u := Pow(v, 2 * m);
    SumIsEval(X, v, 2 * m, 2 * h);
    EvalConcat(X, u, h, h);
    assert u == Pow(Mul(v, v), m) by { PowAdd(v, m, m); PowOfProduct(v, v, m); }
    EvenPower(v, p, m);
    forall k | 0 <= k < h
      ensures Add(X[..h][k], Mul(ONE, X[h..][k])) == Mul(TWO, Mul(E[k], Pow(ONE, k)))
    {
      TransformSplit(x, w, h, k);
      Unbutterfly(E[k], Mul(Pow(w, k), Transform(Odds(x), Mul(w, w))[k]));
      PowOfOne(k);
      MulOne(E[k]);
    }
    EvalFold(X[..h], X[h..], E, u, ONE, h, ONE);
    MulOne(u);
    SumIsEval(E, Mul(v, v), m, h);
  }

  /** Odd slots of the second transform: the even-indexed input has cancelled. */
  lemma SecondTransformOdd(x: seq<Complex>, w: Complex, v: Complex, p: nat, m: nat)
    requires p > 0 && |x| == Pow2(p) && InverseRoots(w, v, p) && m < Pow2(p - 1)
    ensures Transform(Transform(x, w), v)[2 * m + 1]
         == Mul(TWO, Transform(Transform(Odds(x), Mul(w, w)), Mul(v, v))[m])
  {
    hide Add, Mul, Sub, TWO, Evens, Odds, Eval, DftSum, Pow, Transform;
    var h, X, O, vv := Pow2(p - 1), Transform(x, w), Transform(Odds(x), Mul(w, w)), Mul(v, v);
    var u := Pow(v, 2 * m + 1);
    TransformIsEval(X, v, 2 * m + 1);
    TransformIsEval(O, vv, m);
    EvalConcat(X, u, h, h);
    OddPower(w, v, p, m);
    forall k | 0 <= k < h
      ensures Add(X[..h][k], Mul(MINUS_ONE, X[h..][k])) == Mul(TWO, Mul(O[k], Pow(w, k)))
    {
      OddDifference(x, w, h, k);
    }
    EvalFold(X[..h], X[h..], O, u, w, h, MINUS_ONE);
  }

  lemma TransformIsEval(x: seq<Complex>, w: Complex, k: nat)
    requires k < |x|
    ensures Transform(x, w)[k] == Eval(x, Pow(w, k), |x|)
  {
    hide Eval, DftSum, Pow;
    SumIsEval(x, w, k, |x|);
  }

  lemma OddDifference(x: seq<Complex>, w: Complex, h: nat, k: nat)
    requires |x| == 2 * h && HalfTurn(w, h) && k < h
    ensures Add(Transform(x, w)[k], Mul(MINUS_ONE, Transform(x, w)[k + h]))
         == Mul(TWO, Mul(Transform(Odds(x), Mul(w, w))[k], Pow(w, k)))
  {
    hide Add, Mul, Sub, TWO, Transform, Pow, Evens, Odds;
    var t := Transform(Odds(x), Mul(w, w))[k];
    TransformSplit(x, w, h, k);
    Unbutterfly(Transform(Evens(x), Mul(w, w))[k], Mul(Pow(w, k), t));
    MulComm(Pow(w, k), t);
  }

  lemma OddPower(w: Complex, v: Complex, p: nat, m: nat)
    requires p > 0 && InverseRoots(w, v, p)
    ensures Pow(Pow(v, 2 * m + 1), Pow2(p - 1)) == MINUS_ONE
    ensures Mul(w, Pow(v, 2 * m + 1)) == Pow(Mul(v, v), m)
  {
    hide Mul;
    var h, vv := Pow2(p - 1), Mul(v, v);
    var uu := Pow(vv, m);
    assert Pow(v, 2 * m + 1) == Mul(uu, v) by { PowAdd(v, m, m); PowOfProduct(v, v, m); }
    assert Pow(uu, h) == ONE by { EvenPower(v, p, m); }
    PowOfProduct(uu, v, h);
    MulOne(MINUS_ONE);
    MulComm(uu, v);
    MulAssoc(w, v, uu);
    MulOne(uu);
  }

  lemma EvenPower(v: Complex, p: nat, m: nat)
    requires p > 0 && HalfTurn(v, Pow2(p - 1))
    ensures Pow(Pow(Mul(v, v), m), Pow2(p - 1)) == ONE
  {
    hide Mul;
    var h, vv := Pow2(p - 1), Mul(v, v);
    PowPow(vv, h, m);
    PowPow(vv, m, h);
    assert m * h == h * m;
    SquareHalfTurn(v, p);
    PowOfOne(m);
  }

  /** Transforming with a root and then with its inverse multiplies every sample by the length. */
  lemma {:induction false} TransformInverse(x: seq<Complex>, w: Complex, v: Complex, p: nat)
    requires |x| == Pow2(p) && InverseRoots(w, v, p)
    ensures Transform(Transform(x, w), v) == seq(|x|, k requires 0 <= k < |x| => Scale(|x|, x[k]))
    decreases p
  {
    hide Mul, Scale;
    var y := Transform(Transform(x, w), v);
    if p == 0 {
      TransformOfOne(x, w);
      TransformOfOne(x, v);
      ScaleOne(x[0]);
    } else {
      var h := Pow2(p - 1);
      InverseRootsHalve(w, v, p);
      TransformInverse(Evens(x), Mul(w, w), Mul(v, v), p - 1);
      TransformInverse(Odds(x), Mul(w, w), Mul(v, v), p - 1);
      forall k | 0 <= k < |x|
        ensures y[k] == Scale(|x|, x[k])
      {
        var m := k / 2;
        if k == 2 * m {
          SecondTransformEven(x, w, v, p, m);
          DoubleScale(h, Evens(x)[m]);
        } else {
          SecondTransformOdd(x, w, v, p, m);
          DoubleScale(h, Odds(x)[m]);
        }
      }
    }
  }

  lemma ScaleOne(a: Complex)
    ensures Scale(1, a) == a
  {
  }

  lemma TransformOfOne(x: seq<Complex>, w: Complex)
    requires |x| == 1
    ensures Transform(x, w) == x
  {
    assert DftSum(x, w, 0, 1) == Add(ZERO, Mul(x[0], ONE));
    MulOne(x[0]);
  }
}
