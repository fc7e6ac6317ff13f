/** The permutation that puts slot a of the input where the reversed bits of a point. */
module BitReversal {
  import opened ComplexNumbers
  import opened Dft

  /** The p-bit number whose bits are those of a in reverse order. */
  function Rev(a: nat, p: nat): (r: nat)
    requires a < Pow2(p)
    ensures r < Pow2(p)
  {
    if p == 0 then 0
    else if a < Pow2(p - 1) then 2 * Rev(a, p - 1)
    else 2 * Rev(a - Pow2(p - 1), p - 1) + 1
  }

  /** Bit i of a: shift right i times, then test the lowest bit. */
  predicate Bit(a: nat, i: nat) {
    if i == 0 then a % 2 == 1 else Bit(a / 2, i - 1)
  }

  lemma RevHighBit(a: nat, p: nat)
    requires p > 0 && a < Pow2(p)
    ensures Pow2(p) == 2 * Pow2(p - 1)
    ensures a < Pow2(p - 1) ==> Rev(a, p) == 2 * Rev(a, p - 1)
    ensures a >= Pow2(p - 1) ==> Rev(a, p) == 2 * Rev(a - Pow2(p - 1), p - 1) + 1
  {
  }

  /** Reading the low bit first instead of the high bit. */
  lemma {:induction false} RevLowBit(a: nat, p: nat)
    requires p > 0 && a < Pow2(p)
    ensures Pow2(p) == 2 * Pow2(p - 1)
    ensures Rev(a, p) == (if a % 2 == 0 then 0 else Pow2(p - 1)) + Rev(a / 2, p - 1)
  {
    if p > 1 {
      hide Rev, Pow2;
      RevHighBit(a, p);
      RevHighBit(a / 2, p - 1);
      RevLowBit(if a < Pow2(p - 1) then a else a - Pow2(p - 1), p - 1);
    }
  }

  /** Reversing twice gives the number back, so the permutation is an involution. */
  lemma {:induction false} RevInvolution(a: nat, p: nat)
    requires a < Pow2(p)
    ensures Rev(Rev(a, p), p) == a
  {
    if p > 0 {
      var h := Pow2(p - 1);
      RevLowBit(Rev(a, p), p);
      if a < h {
        RevInvolution(a, p - 1);
      } else {
        RevInvolution(a - h, p - 1);
      }
    }
  }

  lemma {:induction false} HighBit(b: nat, q: nat, j: nat)
    requires b < Pow2(q) && j <= q
    ensures Bit(b + Pow2(q), j) == (j == q || Bit(b, j))
    ensures !Bit(b, q)
  {
    if q > 0 {
      assert (b + Pow2(q)) / 2 == b / 2 + Pow2(q - 1);
      HighBit(b / 2, q - 1, if j == 0 then 0 else j - 1);
    }
  }

  /** What the name promises: bit i of the result is bit p-1-i of the argument. */
  lemma {:induction false} RevBits(a: nat, p: nat, i: nat)
    requires a < Pow2(p) && i < p
    ensures Bit(Rev(a, p), i) == Bit(a, p - 1 - i)
  {
    var h := Pow2(p - 1);
    var b := if a < h then a else a - h;
    HighBit(b, p - 1, p - 1 - i);
    if i > 0 {
      assert Rev(a, p) / 2 == Rev(b, p - 1);
      RevBits(b, p - 1, i - 1);
    }
  }

  /** One step of the reversed-carry counter: clear leading ones, set the next bit. */
  function CountReversed(r: nat, p: nat): nat {
    if p == 0 then r
    else if r < Pow2(p - 1) then r + Pow2(p - 1)
    else CountReversed(r - Pow2(p - 1), p - 1)
  }

  /** The counter steps from the reversal of a to the reversal of a + 1. */
  lemma {:induction false} CounterIsReversal(a: nat, p: nat)
    requires a + 1 < Pow2(p)
    ensures CountReversed(Rev(a, p), p) == Rev(a + 1, p)
  {
    RevLowBit(a, p);
    RevLowBit(a + 1, p);
    if a % 2 == 1 {
      CounterIsReversal(a / 2, p - 1);
      assert (a + 1) / 2 == a / 2 + 1;
    }
  }

  /** The whole pass: slot a receives the sample whose index is a reversed. */
  function Permuted(x: seq<Complex>, p: nat): (y: seq<Complex>)
    requires |x| == Pow2(p)
    ensures |y| == |x|
  {
    seq(|x|, a requires 0 <= a < |x| => x[Rev(a, p)])
  }

  /** The pass is its own inverse. */
  lemma PermutedInvolution(x: seq<Complex>, p: nat)
    requires |x| == Pow2(p)
    ensures Permuted(Permuted(x, p), p) == x
  {
    forall a: nat | a < |x| ensures Permuted(Permuted(x, p), p)[a] == x[a] {
      RevInvolution(a, p);
    }
  }

  /** It puts the even samples, permuted, before the odd samples, permuted. */
  lemma PermutedSplit(x: seq<Complex>, p: nat)
    requires p > 0 && |x| == Pow2(p)
    ensures Permuted(x, p) == Permuted(Evens(x), p - 1) + Permuted(Odds(x), p - 1)
  {
  }
}
