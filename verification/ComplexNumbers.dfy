/** Exact complex arithmetic: the pairs (re, im) that fft.c keeps in adjacent array slots. */
module ComplexNumbers {

  datatype Complex = Complex(re: real, im: real)

  const ZERO := Complex(0.0, 0.0)
  const ONE := Complex(1.0, 0.0)
  const MINUS_ONE := Complex(-1.0, 0.0)
  const TWO := Complex(2.0, 0.0)

  function Add(a: Complex, b: Complex): Complex {
    Complex(a.re + b.re, a.im + b.im)
  }

  function Sub(a: Complex, b: Complex): Complex {
    Complex(a.re - b.re, a.im - b.im)
  }

  function Mul(a: Complex, b: Complex): Complex {
    Complex(a.re * b.re - a.im * b.im, a.re * b.im + a.im * b.re)
  }

  function Neg(a: Complex): Complex {
    Complex(-a.re, -a.im)
  }

  function Scale(n: nat, a: Complex): Complex {
    Complex(n as real * a.re, n as real * a.im)
  }

  lemma MulAssoc(a: Complex, b: Complex, c: Complex)
    ensures Mul(Mul(a, b), c) == Mul(a, Mul(b, c))
  {
  }

  lemma MulComm(a: Complex, b: Complex)
    ensures Mul(a, b) == Mul(b, a)
  {
  }

  lemma MulOne(a: Complex)
    ensures Mul(a, ONE) == a == Mul(ONE, a)
  {
  }

  lemma MulDistrib(a: Complex, b: Complex, c: Complex)
    ensures Mul(a, Add(b, c)) == Add(Mul(a, b), Mul(a, c))
  {
  }

  lemma MulMinusOne(a: Complex)
    ensures Mul(a, MINUS_ONE) == Neg(a) == Mul(MINUS_ONE, a)
  {
  }

  lemma MulNeg(a: Complex, b: Complex)
    ensures Mul(Neg(a), b) == Neg(Mul(a, b)) == Mul(a, Neg(b))
    ensures Mul(Neg(a), Neg(b)) == Mul(a, b)
  {
  }

  /** (ab)(cd) == (ac)(bd) */
  lemma MulSwap(a: Complex, b: Complex, c: Complex, d: Complex)
    ensures Mul(Mul(a, b), Mul(c, d)) == Mul(Mul(a, c), Mul(b, d))
  {
    hide Mul;
    MulAssoc(a, b, Mul(c, d));
    MulAssoc(b, c, d);
    MulComm(b, c);
    MulAssoc(c, b, d);
    MulAssoc(a, c, Mul(b, d));
  }

  function Pow(w: Complex, k: nat): Complex {
    if k == 0 then ONE else Mul(Pow(w, k - 1), w)
  }

  lemma PowOne(w: Complex)
    ensures Pow(w, 1) == w
  {
    MulOne(w);
  }

  lemma {:induction false} PowAdd(w: Complex, j: nat, k: nat)
    ensures Pow(w, j + k) == Mul(Pow(w, j), Pow(w, k))
  {
    hide Mul;
    if k == 0 {
      MulOne(Pow(w, j));
    } else {
      PowAdd(w, j, k - 1);
      MulAssoc(Pow(w, j), Pow(w, k - 1), w);
    }
  }

  lemma {:induction false} PowOfProduct(u: Complex, v: Complex, k: nat)
    ensures Pow(Mul(u, v), k) == Mul(Pow(u, k), Pow(v, k))
  {
    hide Mul;
    if k == 0 {
      MulOne(ONE);
    } else {
      PowOfProduct(u, v, k - 1);
      MulSwap(Pow(u, k - 1), Pow(v, k - 1), u, v);
    }
  }

  lemma {:induction false} PowOfOne(k: nat)
    ensures Pow(ONE, k) == ONE
  {
    hide Mul;
    if k > 0 {
      PowOfOne(k - 1);
      MulOne(ONE);
    }
  }

  /** (w^k)^j == w^(j*k) */
  lemma {:induction false} PowPow(w: Complex, j: nat, k: nat)
    ensures Pow(Pow(w, k), j) == Pow(w, j * k)
  {
    hide Mul;
    if j > 0 {
      PowPow(w, j - 1, k);
      assert (j - 1) * k + k == j * k;
      PowAdd(w, (j - 1) * k, k);
    } else {
      assert j * k == 0;
    }
  }
}
