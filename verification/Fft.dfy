/** The in-place transform of fft.c over exact reals. */
module Fft {
  import opened Arithmetic
  import opened ComplexNumbers
  import opened Dft
  import opened BitReversal
  import opened Stages

  /** The sine function and the number pi that the C library supplies. */
  datatype Circle = Circle(sin: real -> real, pi: real) {

    /** The cosine as the code computes it: 1 + wpr, with wpr = -2 sin(a/2)^2. */
    function Cos(a: real): real {
      1.0 - 2.0 * (sin(0.5 * a) * sin(0.5 * a))
    }

    ghost predicate DoubleAngle(a: real) {
      sin(2.0 * a) == 2.0 * (sin(a) * Cos(a))
    }

    ghost predicate OnCircle(a: real) {
      sin(a) * sin(a) + Cos(a) * Cos(a) == 1.0
    }

    ghost predicate IsOdd(a: real) {
      sin(-a) == -sin(a)
    }

    /** The textbook identities that make sin a sine; nothing about rounding. */
    ghost predicate Valid() {
      && sin(pi) == 0.0
      && sin(0.5 * pi) == 1.0
      && (forall a :: DoubleAngle(a))
      && (forall a :: OnCircle(a))
      && (forall a :: IsOdd(a))
    }

    /** cos(theta) + i sin(theta) for theta = 2 pi / (isign * m). */
    function Root(isign: int, m: nat): Complex
      requires isign == 1 || isign == -1
      requires m > 0
    {
      Complex(Cos(Theta(isign, m)), sin(Theta(isign, m)))
    }

    function Theta(isign: int, m: nat): real
      requires isign == 1 || isign == -1
      requires m > 0
    {
      2.0 * pi / (isign * m) as real
    }

    function RootOf(isign: int): nat -> Complex
      requires isign == 1 || isign == -1
    {
      (t: nat) => Root(isign, Pow2(t))
    }

    /** The factors the code computes from theta are the root minus 1. */
    lemma StepFactors(isign: int, mmax: nat)
      requires isign == 1 || isign == -1
      requires mmax > 0
      ensures var theta := 2.0 * pi / (isign * mmax) as real;
        var wtemp := sin(0.5 * theta);
        -2.0 * wtemp * wtemp == Root(isign, mmax).re - 1.0 && sin(theta) == Root(isign, mmax).im
    {
    }

    lemma HalveTheta(isign: int, m: nat)
      requires isign == 1 || isign == -1
      requires m > 0
      ensures Theta(isign, m) == 2.0 * Theta(isign, 2 * m)
    {
      var d := (isign * m) as real;
      assert (isign * (2 * m)) as real == 2.0 * d;
      assert 2.0 * pi / d == 2.0 * (2.0 * pi / (2.0 * d));
    }

    lemma RootSquare(isign: int, m: nat)
      requires isign == 1 || isign == -1
      requires m > 0 && Valid()
      ensures Mul(Root(isign, 2 * m), Root(isign, 2 * m)) == Root(isign, m)
    {
      var a := Theta(isign, 2 * m);
      HalveTheta(isign, m);
      assert 0.5 * (2.0 * a) == a;
      assert DoubleAngle(a) && OnCircle(a);
    }

    lemma FirstRoots(isign: int)
      requires isign == 1 || isign == -1
      requires Valid()
      ensures Root(isign, 1) == ONE && Root(isign, 2) == MINUS_ONE
    {
      assert IsOdd(pi) && IsOdd(0.5 * pi) && DoubleAngle(pi) && IsOdd(2.0 * pi);
      HalveTheta(isign, 1);
      if isign == 1 {
        assert Theta(isign, 2) == pi;
      } else {
        assert Theta(isign, 2) == -pi;
        assert 0.5 * -pi == -(0.5 * pi);
        assert 2.0 * -pi == -(2.0 * pi);
        assert 0.5 * -(2.0 * pi) == -pi;
      }
    }

    lemma RootsFormTower(isign: int)
      requires isign == 1 || isign == -1
      requires Valid()
      ensures Tower(RootOf(isign))
    {
      hide Mul, Root, Valid;
      var w := RootOf(isign);
      FirstRoots(isign);
      assert Pow2(1) == 2;
      forall i: nat ensures Mul(w(i + 1), w(i + 1)) == w(i) {
        RootSquare(isign, Pow2(i));
      }
    }

    lemma OppositeTheta(m: nat)
      requires m > 0
      ensures Theta(-1, m) == -Theta(1, m)
    {
      var d := m as real;
      assert (-1 * m) as real == -d;
      assert 2.0 * pi / -d == -(2.0 * pi / d);
    }

    lemma OppositeProduct(m: nat)
      requires m > 0 && Valid()
      ensures Mul(Root(1, m), Root(-1, m)) == ONE == Mul(Root(-1, m), Root(1, m))
    {
      hide Theta;
      var a := Theta(1, m);
      OppositeTheta(m);
      assert IsOdd(a) && IsOdd(0.5 * a) && OnCircle(a);
      assert 0.5 * -a == -(0.5 * a);
      assert Root(-1, m) == Complex(Root(1, m).re, -Root(1, m).im);
      Conjugate(Root(1, m));
    }

    static lemma Conjugate(c: Complex)
      requires c.im * c.im + c.re * c.re == 1.0
      ensures Mul(c, Complex(c.re, -c.im)) == ONE == Mul(Complex(c.re, -c.im), c)
    {
    }

    lemma OppositeRoots(p: nat)
      requires Valid()
      ensures InverseRoots(Root(1, Pow2(p)), Root(-1, Pow2(p)), p)
      ensures InverseRoots(Root(-1, Pow2(p)), Root(1, Pow2(p)), p)
    {
      hide Mul, Root, HalfTurn, Valid;
      OppositeProduct(Pow2(p));
      Turns(p);
    }

    lemma Turns(p: nat)
      requires Valid()
      ensures p == 0 ==> Root(1, 1) == Root(-1, 1) == ONE
      ensures p > 0 ==> HalfTurn(Root(1, Pow2(p)), Pow2(p - 1)) && HalfTurn(Root(-1, Pow2(p)), Pow2(p - 1))
    {
      hide HalfTurn, Root, Valid;
      FirstRoots(1);
      FirstRoots(-1);
      if p > 0 {
        RootsFormTower(1);
        TowerHalfTurn(RootOf(1), p);
        RootsFormTower(-1);
        TowerHalfTurn(RootOf(-1), p);
      }
    }
  }

  ghost predicate PowerOfTwo(n: int) {
    exists p: nat :: n == Pow2(p)
  }

  /** Complex number a of an array whose slot 0 is unused. */
  function Slot(data: array<real>, a: nat): Complex
    requires 2 * a + 2 < data.Length
    reads data
  {
    Complex(data[2 * a + 1], data[2 * a + 2])
  }

  /** All complex numbers of the array. */
  ghost function Slots(data: array<real>): (s: seq<Complex>)
    requires data.Length % 2 == 1
    reads data
    ensures |s| == data.Length / 2
  {
    seq(data.Length / 2, a requires 0 <= a < data.Length / 2 reads data => Slot(data, a))
  }

  /** Whether the pair {b, Rev(b)} has been visited once the pass has reached a. */
  ghost predicate Visited(b: nat, p: nat, a: nat)
    requires b < Pow2(p)
  {
    b < a || Rev(b, p) < a
  }

  lemma {:induction false} RevZero(p: nat)
    ensures Rev(0, p) == 0
  {
    if p > 0 {
      RevZero(p - 1);
    }
  }

  /** The inner while loop of the first pass: add one to the counter, carrying from the top bit down. */
  method StepCounter(j0: int, nn: nat, ghost p: nat, ghost r: nat) returns (j: int)
    requires nn == Pow2(p) && r < nn && j0 == 2 * r + 1
    ensures j == 2 * CountReversed(r, p) + 1 || (r == nn - 1 && j == 2)
  {
    j := j0;
    var m := nn;
    ghost var q: int, k: int := p, r;
    while m >= 2 && j > m
      invariant 0 <= q <= p && 0 <= k && m == Pow2(q) && j == 2 * k + 1 && k < m
      invariant CountReversed(k, q) == CountReversed(r, p)
      invariant nn - r == m - k
    {
      j := j - m;
      m := m / 2;
      k := k - m;
      q := q - 1;
    }
    j := j + m;
  }

  function Swapped(s: seq<Complex>, i: nat, j: nat): seq<Complex>
    requires i < |s| && j < |s|
  {
    s[i := s[j]][j := s[i]]
  }

  /** Exchange complex numbers i and j, given by the array index of their real parts. */
  method SwapSlots(data: array<real>, i: int, j: int)
    requires 0 < i < j < data.Length - 1 && i % 2 == j % 2 == data.Length % 2 == 1
    modifies data
    ensures data[0] == old(data[0])
    ensures Slots(data) == Swapped(old(Slots(data)), i / 2, j / 2)
  {
    var tempr := data[j];
    data[j] := data[i];
    data[i] := tempr;
    tempr := data[j + 1];
    data[j + 1] := data[i + 1];
    data[i + 1] := tempr;
  }

  /** The slots when the pass has reached a: the visited pairs have been exchanged. */
  ghost predicate Pass(t: seq<Complex>, x: seq<Complex>, p: nat, a: nat)
    requires |t| == |x| == Pow2(p)
  {
    forall b: nat :: b < |x| ==> t[b] == if Visited(b, p, a) then x[Rev(b, p)] else x[b]
  }

  lemma PassStep(t: seq<Complex>, t': seq<Complex>, x: seq<Complex>, p: nat, a: nat)
    requires a < |t| == |t'| == |x| == Pow2(p) && Pass(t, x, p, a)
    requires t' == if Rev(a, p) > a then Swapped(t, a, Rev(a, p)) else t
    ensures Pass(t', x, p, a + 1)
  {
    hide Pass, Swapped;
    forall b: nat | b < |x|
      ensures t'[b] == if Visited(b, p, a + 1) then x[Rev(b, p)] else x[b]
    {
      PassStepAt(t, t', x, p, a, b);
    }
    PassMade(t', x, p, a + 1);
  }

  lemma PassMade(t: seq<Complex>, x: seq<Complex>, p: nat, a: nat)
    requires |t| == |x| == Pow2(p)
    requires forall b: nat :: b < |x| ==> t[b] == if Visited(b, p, a) then x[Rev(b, p)] else x[b]
    ensures Pass(t, x, p, a)
  {
  }

  lemma PassStepAt(t: seq<Complex>, t': seq<Complex>, x: seq<Complex>, p: nat, a: nat, b: nat)
    requires a < |t| == |t'| == |x| == Pow2(p) && b < |x| && Pass(t, x, p, a)
    requires t' == if Rev(a, p) > a then Swapped(t, a, Rev(a, p)) else t
    ensures t'[b] == if Visited(b, p, a + 1) then x[Rev(b, p)] else x[b]
  {
    hide Rev, Pow2;
    var r, q := Rev(a, p), Rev(b, p);
    RevInvolution(a, p);
    RevInvolution(b, p);
    if b == a {
      assert t[r] == if r < a then x[a] else x[r];
    } else if b == r {
      assert q == a && t[a] == if r < a then x[r] else x[a];
    } else {
      assert q != a && t'[b] == t[b];
    }
  }

  lemma PassEnds(t: seq<Complex>, x: seq<Complex>, p: nat)
    requires |t| == |x| == Pow2(p)
    ensures Pass(x, x, p, 0)
    ensures Pass(t, x, p, |x|) ==> t == Permuted(x, p)
  {
    hide Rev;
  }

  /** The reversal of a starts at 0 and is stepped by the counter, which only the last a overflows. */
  lemma NextReversal(a: nat, p: nat)
    requires a < Pow2(p)
    ensures Rev(0, p) == 0
    ensures a + 1 < Pow2(p) ==> Rev(a, p) != Pow2(p) - 1 && CountReversed(Rev(a, p), p) == Rev(a + 1, p)
  {
    RevZero(p);
    if a + 1 < Pow2(p) {
      RevAllOnes(a, p);
      CounterIsReversal(a, p);
    }
  }

  /** The swaps made below a: one for each slot that comes before its reversal, in rising order. */
  ghost predicate SwapsUpTo(swaps: seq<nat>, p: nat, a: nat)
    requires a <= Pow2(p)
  {
    && (forall i, k :: 0 <= i < k < |swaps| ==> swaps[i] < swaps[k])
    && (forall b: nat :: b in swaps <==> b < a && Rev(b, p) > b)
  }

  lemma SwapsStep(swaps: seq<nat>, p: nat, a: nat)
    requires a < Pow2(p) && SwapsUpTo(swaps, p, a)
    ensures SwapsUpTo(if Rev(a, p) > a then swaps + [a] else swaps, p, a + 1)
  {
    hide Rev;
    assert forall i :: 0 <= i < |swaps| ==> swaps[i] in swaps;
    assert forall b: nat :: b in swaps + [a] <==> b in swaps || b == a;
  }

  lemma NoSwaps(p: nat)
    ensures SwapsUpTo([], p, 0)
  {
  }

  /** The first loop: swap each slot with its reversal, walking a reversed-carry counter. The slots a whose
      swap with their reversal is made are exactly those before it, once each. */
  method BitReverse(data: array<real>, nn: nat, ghost p: nat) returns (ghost swaps: seq<nat>)
    requires nn == Pow2(p) && data.Length == 2 * nn + 1
    modifies data
    ensures data[0] == old(data[0])
    ensures Slots(data) == Permuted(old(Slots(data)), p)
    ensures SwapsUpTo(swaps, p, nn)
  {
    hide Slots, Rev, Pow2, CountReversed, Pass, Permuted, Swapped, SwapsUpTo;
    ghost var x := Slots(data);
    ghost var a := 0;
    swaps := [];
    NextReversal(0, p);
    NoSwaps(p);
    PassEnds(x, x, p);
    var n := 2 * nn;
    var j, i := 1, 1;
    while i < n
      invariant a <= nn && i == 2 * a + 1
      invariant a < nn ==> j == 2 * Rev(a, p) + 1
      invariant data[0] == old(data[0])
      invariant Pass(Slots(data), x, p, a)
      invariant SwapsUpTo(swaps, p, a)
    {
      ghost var t := Slots(data);
      SwapsStep(swaps, p, a);
      if j > i {
        SwapSlots(data, i, j);
        swaps := swaps + [a];
      }
      PassStep(t, Slots(data), x, p, a);
      NextReversal(a, p);
      j := StepCounter(j, nn, p, Rev(a, p));
      i := i + 2;
      a := a + 1;
    }
    PassEnds(Slots(data), x, p);
  }

  lemma {:induction false} RevAllOnes(a: nat, p: nat)
    requires a + 1 < Pow2(p)
    ensures Rev(a, p) != Pow2(p) - 1
  {
    if p > 0 && a >= Pow2(p - 1) {
      RevAllOnes(a - Pow2(p - 1), p - 1);
    }
  }

  // ---------------------------------------------------------------- butterflies

  /** Slot a after the pair it belongs to has been combined with twiddle c. */
  function Combined(s: seq<Complex>, h: nat, c: Complex, a: nat): Complex
    requires h > 0 && |s| % (2 * h) == 0 && a < |s|
  {
    PartnerInRange(|s|, h, a);
    if a % (2 * h) < h then Add(s[a], Mul(c, s[a + h])) else Sub(s[a - h], Mul(c, s[a]))
  }

  /** Within its half block, slot a has offset a % h. */
  lemma HalfOffset(a: nat, h: nat)
    requires h > 0
    ensures a % h == if a % (2 * h) < h then a % (2 * h) else a % (2 * h) - h
  {
    var q, m := a % (2 * h), a / (2 * h);
    Doubles(h, m);
    if q < h {
      DivModUnique(a, h, 2 * m, q);
    } else {
      MulAdd(h, 2 * m, 1);
      DivModUnique(a, h, 2 * m + 1, q - h);
    }
  }

  /** Between two visits of the inner loop, only the pair itself has offset k. */
  lemma NextPair(cur: nat, h: nat, k: nat, a: nat)
    requires h > 0 && k < h && cur % (2 * h) == k
    ensures (cur + h) % (2 * h) == k + h && (cur + 2 * h) % (2 * h) == k
    ensures cur <= a < cur + 2 * h && a % h == k <==> a == cur || a == cur + h
  {
    var m := 2 * h;
    DivModUnique(cur + h, m, cur / m, k + h);
    MulAdd(m, cur / m, 1);
    DivModUnique(cur + m, m, cur / m + 1, k);
    HalfOffset(cur, h);
    HalfOffset(cur + h, h);
    if cur <= a < cur + m && a % h == k {
      var d := a / h - cur / h;
      assert h * d == a - cur by { MulAdd(h, a / h, -(cur / h)); }
      MulBound(h, d);
      MulBound(h, d - 2);
      assert h * (d - 2) == h * d - 2 * h;
    }
  }

  /** Slots i and j combined with twiddle c. */
  function PairCombined(s: seq<Complex>, i: nat, j: nat, c: Complex): seq<Complex>
    requires i < |s| && j < |s|
  {
    s[i := Add(s[i], Mul(c, s[j]))][j := Sub(s[i], Mul(c, s[j]))]
  }

  /** The body of the innermost loop, on the slots whose real parts are data[i] and data[j]. */
  method CombinePair(data: array<real>, i: int, j: int, wr: real, wi: real)
    requires 0 < i < j < data.Length - 1 && i % 2 == j % 2 == data.Length % 2 == 1
    modifies data
    ensures data[0] == old(data[0])
    ensures Slots(data) == PairCombined(old(Slots(data)), i / 2, j / 2, Complex(wr, wi))
  {
    hide Mul;
    var tempr, tempi := TwiddleTimes(data, j, wr, wi);
    data[j] := data[i] - tempr;
    data[j + 1] := data[i + 1] - tempi;
    data[i] := data[i] + tempr;
    data[i + 1] := data[i + 1] + tempi;
  }

  /** The second slot of a pair times the twiddle factor. */
  method TwiddleTimes(data: array<real>, j: int, wr: real, wi: real) returns (tempr: real, tempi: real)
    requires 0 < j < data.Length - 1 && j % 2 == 1
    ensures Complex(tempr, tempi) == Mul(Complex(wr, wi), Slot(data, j / 2))
  {
    tempr := wr * data[j] - wi * data[j + 1];
    tempi := wr * data[j + 1] + wi * data[j];
  }

  lemma NoOffsetBelow(h: nat, k: nat, a: nat)
    requires a < k < h
    ensures a % h != k
  {
    DivModUnique(a, h, 0, a);
  }

  /** What the pairs at offset k have become when the loop has reached slot cur. */
  ghost predicate RowDone(t: seq<Complex>, s: seq<Complex>, h: nat, k: nat, c: Complex, cur: nat) {
    && k < h && |s| % (2 * h) == 0 && |t| == |s|
    && forall a: nat :: a < |s| ==> t[a] == (if a % h == k && a < cur then Combined(s, h, c, a) else s[a])
  }

  /** cur is the first slot of a pair at offset k. */
  ghost predicate OnRow(cur: nat, h: nat, k: nat) {
    k < h && cur % (2 * h) == k
  }

  lemma RowInRange(t: seq<Complex>, s: seq<Complex>, h: nat, k: nat, c: Complex, cur: nat)
    requires RowDone(t, s, h, k, c, cur) && cur < |s| && OnRow(cur, h, k)
    ensures cur + h < |s|
  {
    PartnerInRange(|s|, h, cur);
  }

  lemma RowStart(s: seq<Complex>, h: nat, k: nat, c: Complex)
    requires k < h && |s| % (2 * h) == 0
    ensures RowDone(s, s, h, k, c, k) && OnRow(k, h, k)
  {
    hide Combined;
    DivModUnique(k, 2 * h, 0, k);
    forall a: nat | a < k ensures a % h != k {
      NoOffsetBelow(h, k, a);
    }
  }

  lemma RowStep(t: seq<Complex>, t': seq<Complex>, s: seq<Complex>, h: nat, k: nat, c: Complex, cur: nat)
    requires |t| == |t'| == |s| && cur < |s| && OnRow(cur, h, k)
    requires RowDone(t, s, h, k, c, cur)
    requires cur + h < |s| && t' == PairCombined(t, cur, cur + h, c)
    ensures RowDone(t', s, h, k, c, cur + 2 * h) && OnRow(cur + 2 * h, h, k)
  {
    hide Add, Mul, Sub;
    NextPair(cur, h, k, cur);
    NextPair(cur, h, k, cur + h);
    assert t[cur] == s[cur] && t[cur + h] == s[cur + h];
    forall a: nat | a < |s|
      ensures t'[a] == if a % h == k && a < cur + 2 * h then Combined(s, h, c, a) else s[a]
    {
      NextPair(cur, h, k, a);
    }
  }

  /** The innermost loop: combine the pairs at offset k of every block with the twiddle (wr, wi). */
  method CombinePairs(data: array<real>, nn: nat, m: int, mmax: int, wr: real, wi: real)
    requires mmax > 0 && mmax % 2 == 0 && nn % mmax == 0 && data.Length == 2 * nn + 1
    requires 1 <= m < mmax && m % 2 == 1
    modifies data
    ensures data[0] == old(data[0])
    ensures RowDone(Slots(data), old(Slots(data)), mmax / 2, m / 2, Complex(wr, wi), nn)
  {
    hide Add, Mul, Sub, Combined, RowDone, PairCombined, Slots, OnRow;
    ghost var s := Slots(data);
    ghost var h, k, c := mmax / 2, m / 2, Complex(wr, wi);
    var n, istep := 2 * nn, 2 * mmax;
    var i := m;
    ghost var cur := k;
    RowStart(s, h, k, c);
    while i <= n
      invariant i == 2 * cur + 1 && OnRow(cur, h, k)
      invariant data[0] == old(data[0])
      invariant RowDone(Slots(data), s, h, k, c, cur)
    {
      ghost var t := Slots(data);
      RowInRange(t, s, h, k, c, cur);
      var j := i + mmax;
      CombinePair(data, i, j, wr, wi);
      RowStep(t, Slots(data), s, h, k, c, cur);
      i := i + istep;
      cur := cur + 2 * h;
    }
    RowEnd(Slots(data), s, h, k, c, cur);
  }

  lemma RowEnd(t: seq<Complex>, s: seq<Complex>, h: nat, k: nat, c: Complex, cur: nat)
    requires |s| <= cur
    requires RowDone(t, s, h, k, c, cur)
    ensures RowDone(t, s, h, k, c, |s|)
  {
  }

  /** What a stage has become when its twiddle loop has reached offset k. */
  ghost predicate StageDone(t: seq<Complex>, s: seq<Complex>, h: nat, k: nat, w: Complex)
    requires h > 0 && |s| % (2 * h) == 0 && |t| == |s|
  {
    forall a: nat :: a < |s| ==> t[a] == (if a % h < k then ButterflyAt(s, h, w, a) else s[a])
  }

  lemma CombinedIsButterfly(t: seq<Complex>, s: seq<Complex>, h: nat, k: nat, w: Complex, a: nat)
    requires k < h && |s| % (2 * h) == 0 && |t| == |s| && a < |s| && a % h == k
    requires StageDone(t, s, h, k, w)
    ensures Combined(t, h, Pow(w, k), a) == ButterflyAt(s, h, w, a)
  {
    hide Add, Mul, Sub, Pow;
    PartnerInRange(|s|, h, a);
    HalfOffset(a, h);
    if a % (2 * h) < h {
      NextPair(a, h, k, a + h);
    } else {
      PairBelow(a, h, k);
    }
  }

  lemma StageStep(t: seq<Complex>, t': seq<Complex>, s: seq<Complex>, h: nat, k: nat, w: Complex)
    requires k < h && |s| % (2 * h) == 0 && |t| == |t'| == |s|
    requires StageDone(t, s, h, k, w) && RowDone(t', t, h, k, Pow(w, k), |s|)
    ensures StageDone(t', s, h, k + 1, w)
  {
    hide Combined, ButterflyAt;
    forall a: nat | a < |s|
      ensures t'[a] == if a % h < k + 1 then ButterflyAt(s, h, w, a) else s[a]
    {
      if a % h == k {
        CombinedIsButterfly(t, s, h, k, w, a);
      }
    }
  }

  lemma PairBelow(a: nat, h: nat, k: nat)
    requires k < h <= a && a % (2 * h) == k + h
    ensures (a - h) % h == k
  {
    DivModUnique(a - h, 2 * h, a / (2 * h), k);
    HalfOffset(a - h, h);
  }

  /** Turning the twiddle by w, as wr*wpr - wi*wpi + wr and wi*wpr + wr*wpi + wi with wpr + i wpi = w - 1. */
  lemma TwiddleStep(wr: real, wi: real, w: Complex, k: nat)
    requires Complex(wr, wi) == Pow(w, k)
    ensures Complex(wr * (w.re - 1.0) - wi * w.im + wr, wi * (w.re - 1.0) + wr * w.im + wi) == Pow(w, k + 1)
  {
  }

  /** One pass of the outer while loop: all butterflies of block size mmax, with a running twiddle. */
  method ButterflyStage(data: array<real>, nn: nat, mmax: int, wpr: real, wpi: real, ghost w: Complex)
    requires mmax > 0 && mmax % 2 == 0 && nn % mmax == 0 && data.Length == 2 * nn + 1
    requires wpr == w.re - 1.0 && wpi == w.im
    modifies data
    ensures data[0] == old(data[0])
    ensures Slots(data) == Butterfly(old(Slots(data)), mmax / 2, w)
  {
    hide Add, Mul, Sub, ButterflyAt, RowDone;
    ghost var s := Slots(data);
    ghost var h := mmax / 2;
    var wr, wi := 1.0, 0.0;
    var m := 1;
    while m < mmax
      invariant 1 <= m <= mmax + 1 && m % 2 == 1
      invariant data[0] == old(data[0])
      invariant Complex(wr, wi) == Pow(w, m / 2)
      invariant StageDone(Slots(data), s, h, m / 2, w)
    {
      ghost var t := Slots(data);
      CombinePairs(data, nn, m, mmax, wr, wi);
      StageStep(t, Slots(data), s, h, m / 2, w);
      TwiddleStep(wr, wi, w, m / 2);
      var wtemp := wr;
      wr := wtemp * wpr - wi * wpi + wr;
      wi := wi * wpr + wtemp * wpi + wi;
      m := m + 2;
    }
  }

  // ---------------------------------------------------------------- the transform

  /** The whole routine. theta is 2 pi / (isign * mmax), and the stage's root is cos(theta) + i sin(theta). */
  method FFT(data: array<real>, nn: nat, isign: int, circle: Circle)
    requires PowerOfTwo(nn) && data.Length == 2 * nn + 1
    requires isign == 1 || isign == -1
    requires circle.Valid()
    modifies data
    ensures data[0] == old(data[0])
    ensures Slots(data) == Transform(old(Slots(data)), circle.Root(isign, nn))
  {
    hide Butterfly, Butterflies, Transform, Permuted, Slots, Circle.Valid, Circle.Root, Tower, Pow2;
    ghost var p: nat :| nn == Pow2(p);
    ghost var w := circle.RootOf(isign);
    ghost var x := Slots(data);
    ghost var _ := BitReverse(data, nn, p);
    NoStage(Slots(data), p, w);
    var n := 2 * nn;
    var mmax := 2;
    ghost var t := 0;
    while n > mmax
      invariant t <= p && mmax == 2 * Pow2(t)
      invariant data[0] == old(data[0])
      invariant nn % Pow2(t) == 0
      invariant Slots(data) == Butterflies(Permuted(x, p), t, w)
      decreases p - t
    {
      Pow2Larger(t, p);
      NextStage(Permuted(x, p), t, p, w);
      var istep := 2 * mmax;
      var theta := 2.0 * circle.pi / (isign * mmax) as real;
      var wtemp := circle.sin(0.5 * theta);
      var wpr := -2.0 * wtemp * wtemp;
      var wpi := circle.sin(theta);
      circle.StepFactors(isign, mmax);
      ButterflyStage(data, nn, mmax, wpr, wpi, w(t + 1));
      mmax := istep;
      t := t + 1;
    }
    Pow2Larger(t, p);
    circle.RootsFormTower(isign);
    StagesComputeTransform(x, p, w);
  }

  lemma NoStage(s: seq<Complex>, p: nat, w: nat -> Complex)
    ensures Pow2(0) == 1 && |s| % Pow2(0) == 0 && Butterflies(s, 0, w) == s
  {
  }

  /** Facts about stage t + 1 of p. */
  lemma NextStage(s: seq<Complex>, t: nat, p: nat, w: nat -> Complex)
    requires t < p && |s| == Pow2(p)
    ensures |s| % Pow2(t) == 0 && |s| % Pow2(t + 1) == 0 && Pow2(t + 1) == 2 * Pow2(t)
    ensures |s| % (2 * Pow2(t)) == 0
    ensures Butterflies(s, t + 1, w) == Butterfly(Butterflies(s, t, w), Pow2(t), w(t + 1))
  {
    Pow2Divides(p, t);
    Pow2Divides(p, t + 1);
  }

  lemma {:induction false} Pow2Larger(t: nat, p: nat)
    requires t <= p
    ensures t < p <==> Pow2(t) < Pow2(p)
    decreases p - t
  {
    if t < p {
      Pow2Larger(t + 1, p);
    }
  }

  /** A transform followed by the opposite one multiplies every sample by nn. */
  lemma RoundTrip(x: seq<Complex>, isign: int, circle: Circle)
    requires PowerOfTwo(|x|) && circle.Valid()
    requires isign == 1 || isign == -1
    ensures Transform(Transform(x, circle.Root(isign, |x|)), circle.Root(-isign, |x|))
         == seq(|x|, k requires 0 <= k < |x| => Scale(|x|, x[k]))
  {
    var p: nat :| |x| == Pow2(p);
    circle.OppositeRoots(p);
    TransformInverse(x, circle.Root(isign, |x|), circle.Root(-isign, |x|), p);
  }

  /** The promise of the code's documentation: transforming the same array there and back gives nn times the
      data. */
  method ThereAndBack(data: array<real>, nn: nat, isign: int, circle: Circle)
    requires PowerOfTwo(nn) && data.Length == 2 * nn + 1
    requires isign == 1 || isign == -1
    requires circle.Valid()
    modifies data
    ensures forall k :: 0 <= k < nn ==> Slot(data, k) == Scale(nn, old(Slot(data, k)))
  {
    hide Transform, Circle.Valid, Circle.Root, Scale;
    ghost var x := Slots(data);
    FFT(data, nn, isign, circle);
    FFT(data, nn, -isign, circle);
    RoundTrip(x, isign, circle);
    assert forall k :: 0 <= k < nn ==> Slots(data)[k] == Slot(data, k);
  }
}
