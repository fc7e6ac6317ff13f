/** Bit fields of a 32-bit word: their width, packing and unpacking. */
module GainBits {

  /** The low w bits. */
  function Mask(w: bv6): bv32
    requires w <= 31
  {
    (1 << w) - 1
  }

  /** fls: the number of bits of x, by halving the window the highest bit is searched in. */
  method Fls(x0: bv32) returns (r: bv6)
    ensures r == BitLength(x0)
  {
    var x := x0;
    if x == 0 {
      return 0;
    }
    r := 32;
    if x & 0xffff_0000 == 0 {
      x, r := x << 16, r - 16;
    }
    if x & 0xff00_0000 == 0 {
      x, r := x << 8, r - 8;
    }
    if x & 0xf000_0000 == 0 {
      x, r := x << 4, r - 4;
    }
    if x & 0xc000_0000 == 0 {
      x, r := x << 2, r - 2;
    }
    if x & 0x8000_0000 == 0 {
      x, r := x << 1, r - 1;
    }
    assert TopIs(x0, r);
    LengthOf(x0, r);
  }

  /** How often x can be halved before nothing is left. */
  function BitLength(x: bv32): bv6
    decreases x
  {
    if x == 0 then 0 else BitLength(x >> 1) + 1
  }

  /** Bit r - 1 is the highest bit of x. */
  predicate TopIs(x: bv32, r: bv6) {
    1 <= r <= 32 && x >> (r - 1) == 1
  }

  /** x lies under the mask of r bits, and not under that of one less. */
  predicate IsLength(x: bv32, r: bv6) {
    && r <= 32
    && (r == 0 <==> x == 0)
    && (0 < r ==> Mask(r - 1) < x)
    && (r <= 31 ==> x <= Mask(r))
  }

  lemma {:induction false} TopBit(x: bv32)
    ensures x == 0 ==> BitLength(x) == 0
    ensures x != 0 ==> TopIs(x, BitLength(x))
    decreases x
  {
    hide TopIs;
    if x != 0 {
      TopBit(x >> 1);
      TopStep(x, BitLength(x >> 1));
    }
  }

  lemma TopStep(x: bv32, s: bv6)
    requires x != 0
    ensures x >> 1 == 0 ==> TopIs(x, 1)
    ensures TopIs(x >> 1, s) ==> TopIs(x, s + 1)
  {
    if TopIs(x >> 1, s) {
      NoTopBit(x);
      ShiftTwice(x, s);
    }
  }

  lemma NoTopBit(x: bv32)
    ensures (x >> 1) >> 31 == 0
  {
  }

  lemma ShiftTwice(x: bv32, s: bv6)
    requires 1 <= s <= 31
    ensures (x >> 1) >> (s - 1) == x >> s
  {
  }

  /** BitLength is the exact bit length of every word. */
  lemma BitLengthExact(x: bv32)
    ensures IsLength(x, BitLength(x))
  {
    hide BitLength, TopIs, IsLength;
    TopBit(x);
    if x == 0 {
      ZeroLength();
    } else {
      TopBounds(x, BitLength(x));
    }
  }

  lemma ZeroLength()
    ensures IsLength(0, 0)
  {
  }

  lemma TopBounds(x: bv32, r: bv6)
    requires TopIs(x, r)
    ensures IsLength(x, r)
  {
  }

  lemma LengthOf(x: bv32, r: bv6)
    requires TopIs(x, r)
    ensures BitLength(x) == r
  {
    hide BitLength, TopIs;
    TopBit(x);
    UniqueTop(x, r, BitLength(x));
  }

  lemma UniqueTop(x: bv32, r: bv6, s: bv6)
    requires TopIs(x, r)
    ensures x != 0
    ensures TopIs(x, s) ==> r == s
  {
    ZeroShift(r - 1);
  }

  lemma ZeroShift(b: bv6)
    requires b < 32
    ensures (0 as bv32) >> b == 0
  {
  }

  // ---------------------------------------------------------------- one field

  // The machine operations by name, so that proofs above them need not look at single bits.

  function And(a: bv32, b: bv32): bv32 {
    a & b
  }

  function Or(a: bv32, b: bv32): bv32 {
    a | b
  }

  /** The signed value of a word whose sign bit is clear. */
  function Value(v: bv32): nat {
    v as nat
  }

  /** v has no bits but the low width ones. */
  predicate Narrow(v: bv32, width: bv6)
    requires width <= 31
  {
    v & Mask(width) == v
  }

  predicate AtMost(a: bv32, b: bv32) {
    a <= b
  }

  function Shr(word: bv32, bit: bv6): bv32
    requires bit < 32
  {
    word >> bit
  }

  function Shl(word: bv32, bit: bv6): bv32
    requires bit < 32
  {
    word << bit
  }

  /** The high bits that an arithmetic shift of a negative word fills with ones. */
  function Fill(bit: bv6): bv32
    requires bit < 32
  {
    !(0xffff_ffff >> bit)
  }

  /** The arithmetic right shift of a signed word. */
  function ShiftRight(word: bv32, bit: bv6): bv32
    requires bit < 32
  {
    if word & 0x8000_0000 == 0 then Shr(word, bit) else Or(Shr(word, bit), Fill(bit))
  }

  /** What is left of a shifted word under the mask of a field. */
  function Field(word: bv32, bit: bv6, width: bv6): bv32
    requires bit < 32 && width <= 31
  {
    And(ShiftRight(word, bit), Mask(width))
  }

  predicate Fits(bit: bv6, width: bv6) {
    bit < 32 && width <= 31 && bit <= 32 - width
  }

  predicate Disjoint(bit: bv6, width: bv6, bit1: bv6, width1: bv6)
    requires Fits(bit, width) && Fits(bit1, width1)
  {
    bit + width <= bit1 || bit1 + width1 <= bit
  }

  lemma MaskedOr(a: bv32, f: bv32, m: bv32)
    requires And(f, m) == 0
    ensures And(Or(a, f), m) == And(a, m)
  {
  }

  lemma AndOverOr(a: bv32, b: bv32, m: bv32)
    ensures And(Or(a, b), m) == Or(And(a, m), And(b, m))
  {
    assert (a | b) & m == (a & m) | (b & m);
  }

  lemma AndZero(m: bv32)
    ensures And(0, m) == 0
  {
  }

  lemma OrZero(a: bv32)
    ensures Or(a, 0) == a && Or(0, a) == a
  {
  }

  lemma UnderMask(v: bv32, width: bv6)
    requires width <= 31 && Narrow(v, width)
    ensures And(v, Mask(width)) == v
  {
  }

  lemma FillIsMasked(bit: bv6, width: bv6)
    requires Fits(bit, width)
    ensures And(Fill(bit), Mask(width)) == 0
  {
  }

  lemma OrShiftBits(a: bv32, b: bv32, bit: bv6)
    requires bit < 32
    ensures Shr(a | b, bit) == Shr(a, bit) | Shr(b, bit)
  {
  }

  lemma OrShift(a: bv32, b: bv32, bit: bv6)
    requires bit < 32
    ensures Shr(Or(a, b), bit) == Or(Shr(a, bit), Shr(b, bit))
  {
    hide Shr;
    OrShiftBits(a, b, bit);
  }

  lemma ShiftBack(v: bv32, bit: bv6, width: bv6)
    requires Fits(bit, width) && Narrow(v, width)
    ensures Shr(Shl(v, bit), bit) == v
  {
  }

  lemma FieldAbove(v: bv32, bit: bv6, width: bv6, bit1: bv6)
    requires Fits(bit, width) && bit1 < 32 && bit + width <= bit1
    ensures And(Shr(Shl(v, bit1), bit), Mask(width)) == 0
  {
    assert ((v << bit1) >> bit) & ((1 << width) - 1) == 0;
  }

  lemma ShrNone(y: bv32)
    ensures Shr(y, 0) == y
  {
  }

  lemma OneMoreAfter(y: bv32, a: bv6)
    requires a < 31
    ensures Shr(Shr(y, a), 1) == Shr(y, a + 1)
  {
    assert (y >> a) >> 1 == y >> (a + 1);
  }

  lemma OneMoreBefore(y: bv32, k: bv6)
    requires 1 <= k <= 31
    ensures Shr(Shr(y, 1), k - 1) == Shr(y, k)
  {
    ShiftTwice(y, k);
  }

  lemma {:induction false} ShrTwice(y: bv32, a: bv6, k: bv6)
    requires a < 32 && k < 32 && a + k < 32
    ensures Shr(Shr(y, a), k) == Shr(y, a + k)
    decreases k
  {
    hide Shr;
    if k == 0 {
      ShrNone(Shr(y, a));
    } else {
      OneMoreAfter(y, a);
      OneMoreBefore(Shr(y, a), k);
      ShrTwice(y, a + 1, k - 1);
    }
  }

  lemma NarrowIsGone(v: bv32, width: bv6, k: bv6)
    requires width <= k < 32 && Narrow(v, width)
    ensures Shr(v, k) == 0
  {
  }

  lemma Gap(bit: bv6, bit1: bv6, width1: bv6)
    requires bit < 32 && Fits(bit1, width1) && bit1 + width1 <= bit
    ensures bit - bit1 < 32 && bit1 + (bit - bit1) == bit && width1 <= bit - bit1
  {
  }

  lemma FieldBelow(v: bv32, bit: bv6, bit1: bv6, width1: bv6)
    requires bit < 32 && Fits(bit1, width1) && bit1 + width1 <= bit && Narrow(v, width1)
    ensures Shr(Shl(v, bit1), bit) == 0
  {
    hide Shr, Shl, Narrow;
    Gap(bit, bit1, width1);
    ShiftBack(v, bit1, width1);
    ShrTwice(Shl(v, bit1), bit1, bit - bit1);
    NarrowIsGone(v, width1, bit - bit1);
  }

  /** The sign does not reach a field inside the word. */
  lemma FieldIsLogical(word: bv32, bit: bv6, width: bv6)
    requires Fits(bit, width)
    ensures Field(word, bit, width) == And(Shr(word, bit), Mask(width))
  {
    hide And, Or, Shr, Fill, Mask;
    FillIsMasked(bit, width);
    MaskedOr(Shr(word, bit), Fill(bit), Mask(width));
  }

  lemma FieldOfOr(a: bv32, b: bv32, bit: bv6, width: bv6)
    requires Fits(bit, width)
    ensures Field(Or(a, b), bit, width) == Or(Field(a, bit, width), Field(b, bit, width))
  {
    hide And, Or, Shr, Mask, Field;
    FieldIsLogical(a, bit, width);
    FieldIsLogical(b, bit, width);
    FieldIsLogical(Or(a, b), bit, width);
    OrShift(a, b, bit);
    AndOverOr(Shr(a, bit), Shr(b, bit), Mask(width));
  }

  lemma OwnField(v: bv32, bit: bv6, width: bv6)
    requires Fits(bit, width) && Narrow(v, width)
    ensures Field(Shl(v, bit), bit, width) == v
  {
    hide And, Shr, Shl, Mask, Field;
    FieldIsLogical(Shl(v, bit), bit, width);
    ShiftBack(v, bit, width);
    UnderMask(v, width);
  }

  lemma ZeroField(bit: bv6, width: bv6)
    requires Fits(bit, width)
    ensures Field(0, bit, width) == 0
  {
    hide And, Shr, Mask, Field;
    FieldIsLogical(0, bit, width);
    ShrZero(bit);
    AndZero(Mask(width));
  }

  lemma ShrZero(bit: bv6)
    requires bit < 32
    ensures Shr(0, bit) == 0
  {
    ZeroShift(bit);
  }

  /** A value packed into one field is invisible in every other. */
  lemma OtherField(v: bv32, bit: bv6, width: bv6, bit1: bv6, width1: bv6)
    requires Fits(bit, width) && Fits(bit1, width1) && Disjoint(bit, width, bit1, width1) && Narrow(v, width1)
    ensures Field(Shl(v, bit1), bit, width) == 0
  {
    hide And, Shr, Shl, Mask, Field;
    FieldIsLogical(Shl(v, bit1), bit, width);
    AndZero(Mask(width));
    if bit + width <= bit1 {
      FieldAbove(v, bit, width, bit1);
    } else {
      FieldBelow(v, bit, bit1, width1);
    }
  }

  /** Whatever does not exceed max fits the field that max needs. */
  lemma LengthFits(v: bv32, max: bv32)
    requires AtMost(v, max) && BitLength(max) <= 31
    ensures Narrow(v, BitLength(max))
  {
    hide BitLength, IsLength, AtMost, Narrow;
    BitLengthExact(max);
    UnderMax(v, max, BitLength(max));
  }

  lemma UnderMax(v: bv32, max: bv32, width: bv6)
    requires width <= 31 && AtMost(v, max) && IsLength(max, width)
    ensures Narrow(v, width)
  {
  }

  // ---------------------------------------------------------------- the range of a field

  lemma OnesField(bit: bv6, width: bv6)
    requires bit < 32 && width <= 31
    ensures Field(0xffff_ffff, bit, width) == Mask(width)
  {
    hide Mask, And;
    OnesShifted(bit);
    OnesMasked(Mask(width));
  }

  lemma OnesShifted(bit: bv6)
    requires bit < 32
    ensures ShiftRight(0xffff_ffff, bit) == 0xffff_ffff
  {
  }

  lemma OnesMasked(m: bv32)
    ensures And(0xffff_ffff, m) == m
  {
  }

  lemma FieldUnderMask(word: bv32, bit: bv6, width: bv6)
    requires bit < 32 && width <= 31
    ensures AtMost(Field(word, bit, width), Mask(width))
  {
    hide ShiftRight, Mask, And, AtMost;
    AndAtMost(ShiftRight(word, bit), Mask(width));
  }

  lemma AndAtMost(a: bv32, m: bv32)
    ensures AtMost(And(a, m), m)
  {
  }

  lemma MaskIsLargest(max: bv32, width: bv6)
    requires width <= 31 && IsLength(max, width)
    ensures AtMost(Mask(width), max) <==> max == Mask(width)
  {
  }

  /** The words whose fields all stay within max are all words exactly if max has no zero among its bits; the
      word of ones is one that fails otherwise. */
  lemma AllFieldsInRange(bit: bv6, max: bv32)
    requires bit < 32 && BitLength(max) <= 31
    ensures (forall word :: AtMost(Field(word, bit, BitLength(max)), max)) <==> max == Mask(BitLength(max))
    ensures AtMost(Field(0xffff_ffff, bit, BitLength(max)), max) <==> max == Mask(BitLength(max))
  {
    hide AtMost, Field, Mask, BitLength, IsLength;
    var width := BitLength(max);
    BitLengthExact(max);
    OnesField(bit, width);
    MaskIsLargest(max, width);
    forall word
      ensures AtMost(Field(word, bit, width), Mask(width))
    {
      FieldUnderMask(word, bit, width);
    }
  }
}
