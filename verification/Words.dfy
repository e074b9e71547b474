/** The machine's unsigned words as ranges of integers. Wrap-around is always written out as a remainder. */
module Words {
  import opened Numbers

  const BASE := 0x1_0000_0000
  const BASE64 := 0x1_0000_0000_0000_0000

  type Byte = x: int | 0 <= x < 0x100
  type Half = x: int | 0 <= x < 0x1_0000
  type Word = x: int | 0 <= x < 0x1_0000_0000
  type DWord = x: int | 0 <= x < 0x1_0000_0000_0000_0000

  /** A right shift by a number of bits that is not a constant. */
  function Shr(x: nat, bits: nat): nat {
    if bits == 0 then x else Shr(x, bits - 1) / 2
  }

  lemma {:induction false} ShrSplit(x: nat, j: nat, k: nat)
    ensures Shr(x, j + k) == Shr(Shr(x, j), k)
  {
    if k > 0 {
      ShrSplit(x, j, k - 1);
    }
  }

  /** Shifting drops exactly the low bits: what was put above them comes through unchanged. */
  lemma {:induction false} ShrAbove(low: nat, high: nat, bits: nat)
    ensures 0 <= Pow(2, bits) * high
    ensures Shr(low + Pow(2, bits) * high, bits) == Shr(low, bits) + high
    decreases bits
  {
    PowPositive(2, bits);
    MulNonneg(Pow(2, bits), high);
    if bits > 0 {
      PowPositive(2, bits - 1);
      assert Pow(2, bits) * high == Pow(2, bits - 1) * (2 * high);
      ShrAbove(low, 2 * high, bits - 1);
    }
  }

  lemma {:induction false} ShrBelow(x: nat, bits: nat)
    requires x < Pow(2, bits)
    ensures Shr(x, bits) == 0
  {
    if bits > 0 {
      var low, high := x % Pow(2, bits - 1), x / Pow(2, bits - 1);
      PowPositive(2, bits - 1);
      DivModFacts(x, Pow(2, bits - 1));
      DivBelow(x, Pow(2, bits - 1), 2);
      if high < 0 {
        MulAway(Pow(2, bits - 1), high);
      }
      ShrAbove(low, high, bits - 1);
      ShrBelow(low, bits - 1);
    }
  }

  lemma ShrIsDivision(x: nat, bits: nat)
    ensures 0 < Pow(2, bits) && Shr(x, bits) == x / Pow(2, bits)
  {
    PowPositive(2, bits);
    var p := Pow(2, bits);
    DivModFacts(x, p);
    if x / p < 0 {
      MulAway(p, x / p);
    }
    ShrBelow(x % p, bits);
    ShrAbove(x % p, x / p, bits);
  }
}
