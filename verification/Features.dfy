/** ABI 2.1 feature masks: 128 bits in two 64-bit words, and how the word operations
    act on the feature numbers a mask holds. */
module Features {
  import opened Powers

  // ----- 64-bit words -----

  const WIDTH := 64

  type Word = w: int | 0 <= w < WORD_LIMIT

  // Bitwise `&`, `|` and `!` on words; `One` is `1 << n`.
  function And(x: nat, y: nat): nat {
    if x == 0 || y == 0 then 0 else x % 2 * (y % 2) + 2 * And(x / 2, y / 2)
  }

  function Or(x: nat, y: nat): nat
    decreases x + y
  {
    if x == 0 then y else if y == 0 then x
    else (if x % 2 == 1 || y % 2 == 1 then 1 else 0) + 2 * Or(x / 2, y / 2)
  }

  function Complement(x: Word): Word {
    WORD_LIMIT - 1 - x
  }

  function One(n: nat): nat {
    Pow2(n)
  }

  // Bit `n` of a word.
  predicate Bit(x: nat, n: nat)
    decreases n
  {
    if n == 0 then x % 2 == 1 else Bit(x / 2, n - 1)
  }

  lemma {:induction false} BitAnd(x: nat, y: nat, n: nat)
    ensures Bit(And(x, y), n) <==> Bit(x, n) && Bit(y, n)
    decreases n
  {
    if x == 0 || y == 0 {
      BitZero(n);
    } else {
      var z := And(x, y);
      assert z % 2 == x % 2 * (y % 2) && z / 2 == And(x / 2, y / 2);
      if n > 0 { BitAnd(x / 2, y / 2, n - 1); }
    }
  }

  lemma OrHalf(x: nat, y: nat)
    requires x > 0 && y > 0
    ensures Or(x, y) / 2 == Or(x / 2, y / 2)
    ensures Or(x, y) % 2 == 1 <==> x % 2 == 1 || y % 2 == 1
  {
  }

  lemma {:induction false} BitOr(x: nat, y: nat, n: nat)
    ensures Bit(Or(x, y), n) <==> Bit(x, n) || Bit(y, n)
    decreases n
  {
    if x == 0 || y == 0 {
      BitZero(n);
    } else {
      OrHalf(x, y);
      if n > 0 { BitOr(x / 2, y / 2, n - 1); }
    }
  }

  lemma {:induction false} BitZero(n: nat)
    ensures !Bit(0, n)
    decreases n
  {
    if n > 0 { BitZero(n - 1); }
  }

  lemma {:induction false} BitComplement(x: nat, n: nat, width: nat)
    requires x < Pow2(width) && n < width
    ensures Bit(Pow2(width) - 1 - x, n) <==> !Bit(x, n)
    decreases n
  {
    var half := Pow2(width - 1);
    assert Pow2(width) - 1 - x == 2 * (half - 1 - x / 2) + (1 - x % 2);
    if n > 0 { BitComplement(x / 2, n - 1, width - 1); }
  }

  lemma {:induction false} BitOne(a: nat, b: nat)
    ensures Bit(One(a), b) <==> a == b
    decreases b
  {
    if b == 0 {
      assert a > 0 ==> One(a) == 2 * One(a - 1);
    } else if a == 0 {
      BitZero(b - 1);
    } else {
      assert One(a) / 2 == One(a - 1);
      BitOne(a - 1, b - 1);
    }
  }

  // A word that is not zero has a bit, and one below 2^width has it below `width`.
  lemma {:induction false} SomeBit(x: nat, width: nat) returns (n: nat)
    requires 0 < x < Pow2(width)
    ensures n < width && Bit(x, n)
    decreases width
  {
    if x % 2 == 1 {
      n := 0;
    } else {
      var m := SomeBit(x / 2, width - 1);
      n := m + 1;
    }
  }

  lemma WidthIsLimit()
    ensures Pow2(WIDTH) == WORD_LIMIT
  {
    assert Pow2(8) == 0x100;
    Pow2Sum(8, 8);
    Pow2Sum(16, 16);
    Pow2Sum(32, 32);
  }

  lemma {:induction false} Pow2Sum(a: nat, b: nat)
    ensures Pow2(a + b) == Pow2(a) * Pow2(b)
    decreases b
  {
    if b > 0 {
      Pow2Sum(a, b - 1);
      assert Pow2(a + b) == 2 * (Pow2(a) * Pow2(b - 1));
      assert Pow2(b) == 2 * Pow2(b - 1);
    }
  }

  lemma {:induction false} AndSmall(x: nat, y: nat)
    ensures And(x, y) <= x
    decreases x
  {
    if x != 0 && y != 0 { AndSmall(x / 2, y / 2); }
  }

  lemma {:induction false} OrSmall(x: nat, y: nat, width: nat)
    requires x < Pow2(width) && y < Pow2(width)
    ensures Or(x, y) < Pow2(width)
    decreases width
  {
    if x != 0 && y != 0 { OrSmall(x / 2, y / 2, width - 1); }
  }

  // `x & (1 << n) != 0` tests bit `n`.
  lemma TestIsBit(x: Word, n: nat)
    requires n < WIDTH
    ensures And(x, One(n)) != 0 <==> Bit(x, n)
  {
    WidthIsLimit();
    if And(x, One(n)) != 0 {
      AndSmall(x, One(n));
      var k := SomeBit(And(x, One(n)), WIDTH);
      BitAnd(x, One(n), k);
      BitOne(n, k);
    }
    if Bit(x, n) {
      BitAnd(x, One(n), n);
      BitOne(n, n);
      BitZero(n);
    }
  }

  // `x & !y == 0` when every bit of `x` is a bit of `y`.
  lemma DifferenceIsEmpty(x: Word, y: Word)
    ensures And(x, Complement(y)) == 0 <==> forall n :: 0 <= n < WIDTH && Bit(x, n) ==> Bit(y, n)
  {
    WidthIsLimit();
    var d := And(x, Complement(y));
    if d == 0 {
      forall n | 0 <= n < WIDTH && Bit(x, n) ensures Bit(y, n) {
        BitAnd(x, Complement(y), n);
        BitComplement(y, n, WIDTH);
        BitZero(n);
      }
    } else {
      AndSmall(x, Complement(y));
      var n := SomeBit(d, WIDTH);
      BitAnd(x, Complement(y), n);
      BitComplement(y, n, WIDTH);
    }
  }

  // ----- Feature sets -----

  datatype FeatureSet = FeatureSet(w0: Word, w1: Word)

  function WordOf(s: FeatureSet, bit: nat): Word {
    if bit < WIDTH then s.w0 else s.w1
  }

  predicate Contains(s: FeatureSet, bit: nat) {
    bit < 128 && And(WordOf(s, bit), One(bit % WIDTH)) != 0
  }

  predicate IsSubset(s: FeatureSet, other: FeatureSet) {
    And(s.w0, Complement(other.w0)) == 0 && And(s.w1, Complement(other.w1)) == 0
  }

  function AndWord(x: Word, y: Word): Word {
    AndSmall(x, y);
    And(x, y)
  }

  function OrWord(x: Word, y: Word): Word {
    WidthIsLimit();
    OrSmall(x, y, WIDTH);
    Or(x, y)
  }

  function OneWord(n: nat): Word
    requires n < WIDTH
  {
    WidthIsLimit();
    Pow2Smaller(n, WIDTH);
    One(n)
  }

  lemma {:induction false} Pow2Smaller(a: nat, b: nat)
    requires a < b
    ensures Pow2(a) < Pow2(b)
    decreases b
  {
    if a < b - 1 { Pow2Smaller(a, b - 1); }
  }

  function Intersection(s: FeatureSet, other: FeatureSet): FeatureSet {
    FeatureSet(AndWord(s.w0, other.w0), AndWord(s.w1, other.w1))
  }

  function Union(s: FeatureSet, other: FeatureSet): FeatureSet {
    FeatureSet(OrWord(s.w0, other.w0), OrWord(s.w1, other.w1))
  }

  function WithoutBit(s: FeatureSet, bit: nat): FeatureSet
    requires bit < 128
  {
    var keep := Complement(OneWord(bit % WIDTH));
    if bit < WIDTH then FeatureSet(AndWord(s.w0, keep), s.w1) else FeatureSet(s.w0, AndWord(s.w1, keep))
  }

  // The feature numbers a mask holds.
  ghost function Bits(s: FeatureSet): set<nat> {
    set b: nat | b < 128 && Contains(s, b)
  }

  lemma ContainsIsBit(s: FeatureSet, b: nat)
    ensures b in Bits(s) <==> b < 128 && Bit(WordOf(s, b), b % WIDTH)
  {
    if b < 128 { TestIsBit(WordOf(s, b), b % WIDTH); }
  }

  lemma IntersectionBits(s: FeatureSet, t: FeatureSet)
    ensures Bits(Intersection(s, t)) == Bits(s) * Bits(t)
  {
    forall b: nat ensures b in Bits(Intersection(s, t)) <==> b in Bits(s) * Bits(t) {
      ContainsIsBit(s, b);
      ContainsIsBit(t, b);
      ContainsIsBit(Intersection(s, t), b);
      BitAnd(WordOf(s, b), WordOf(t, b), b % WIDTH);
    }
  }

  lemma UnionBits(s: FeatureSet, t: FeatureSet)
    ensures Bits(Union(s, t)) == Bits(s) + Bits(t)
  {
    forall b: nat ensures b in Bits(Union(s, t)) <==> b in Bits(s) + Bits(t) {
      ContainsIsBit(s, b);
      ContainsIsBit(t, b);
      ContainsIsBit(Union(s, t), b);
      BitOr(WordOf(s, b), WordOf(t, b), b % WIDTH);
    }
  }

  // Masking a word with the complement of `1 << a` clears exactly bit `a`.
  lemma ClearedWord(w: Word, a: nat, n: nat)
    requires a < WIDTH && n < WIDTH
    ensures Bit(AndWord(w, Complement(OneWord(a))), n) <==> Bit(w, n) && n != a
  {
    WidthIsLimit();
    BitAnd(w, Complement(OneWord(a)), n);
    BitComplement(OneWord(a), n, WIDTH);
    BitOne(a, n);
  }

  lemma WithoutAt(s: FeatureSet, bit: nat, b: nat)
    requires bit < 128
    ensures b in Bits(WithoutBit(s, bit)) <==> b in Bits(s) && b != bit
  {
    ContainsIsBit(s, b);
    ContainsIsBit(WithoutBit(s, bit), b);
    if b < 128 { ClearedWord(WordOf(s, b), bit % WIDTH, b % WIDTH); }
  }

  lemma WithoutBits(s: FeatureSet, bit: nat)
    requires bit < 128
    ensures Bits(WithoutBit(s, bit)) == Bits(s) - {bit}
  {
    forall b: nat ensures b in Bits(WithoutBit(s, bit)) <==> b in Bits(s) - {bit} { WithoutAt(s, bit, b); }
  }

  lemma SubsetAt(s: FeatureSet, t: FeatureSet, b: nat)
    requires IsSubset(s, t) && b in Bits(s)
    ensures b in Bits(t)
  {
    DifferenceIsEmpty(WordOf(s, b), WordOf(t, b));
    ContainsIsBit(s, b);
    ContainsIsBit(t, b);
  }

  lemma NotSubset(s: FeatureSet, t: FeatureSet, high: bool) returns (b: nat)
    requires if high then And(s.w1, Complement(t.w1)) != 0 else And(s.w0, Complement(t.w0)) != 0
    ensures b in Bits(s) && b !in Bits(t)
  {
    var x, y := if high then s.w1 else s.w0, if high then t.w1 else t.w0;
    DifferenceIsEmpty(x, y);
    var n :| 0 <= n < WIDTH && Bit(x, n) && !Bit(y, n);
    b := if high then n + WIDTH else n;
    ContainsIsBit(s, b);
    ContainsIsBit(t, b);
  }

  lemma SubsetBits(s: FeatureSet, t: FeatureSet)
    ensures IsSubset(s, t) <==> Bits(s) <= Bits(t)
  {
    if IsSubset(s, t) {
      forall b: nat | b in Bits(s) ensures b in Bits(t) { SubsetAt(s, t, b); }
    } else {
      var b := NotSubset(s, t, And(s.w0, Complement(t.w0)) == 0);
    }
  }

  lemma {:induction false} SameWord(x: nat, y: nat, width: nat)
    requires x < Pow2(width) && y < Pow2(width)
    requires forall n :: 0 <= n < width ==> (Bit(x, n) <==> Bit(y, n))
    ensures x == y
    decreases width
  {
    if width > 0 {
      assert Bit(x, 0) <==> Bit(y, 0);
      forall n | 0 <= n < width - 1 ensures Bit(x / 2, n) <==> Bit(y / 2, n) {
        assert Bit(x, n + 1) <==> Bit(y, n + 1);
      }
      SameWord(x / 2, y / 2, width - 1);
    }
  }

  // Masks that hold the same feature numbers are the same words.
  lemma SameBits(s: FeatureSet, t: FeatureSet)
    requires Bits(s) == Bits(t)
    ensures s == t
  {
    WidthIsLimit();
    forall n | 0 <= n < WIDTH ensures (Bit(s.w0, n) <==> Bit(t.w0, n)) && (Bit(s.w1, n) <==> Bit(t.w1, n)) {
      ContainsIsBit(s, n);
      ContainsIsBit(t, n);
      ContainsIsBit(s, n + WIDTH);
      ContainsIsBit(t, n + WIDTH);
    }
    SameWord(s.w0, t.w0, WIDTH);
    SameWord(s.w1, t.w1, WIDTH);
  }
}
