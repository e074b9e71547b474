/** Bitwise operators on non-negative integers, bit by bit. */
module Bits {
  import opened Numbers
  import opened Words

  function And(x: nat, y: nat): (z: nat)
    ensures z <= x && z <= y
  {
    if x == 0 || y == 0 then 0 else (if x % 2 == 1 && y % 2 == 1 then 1 else 0) + 2 * And(x / 2, y / 2)
  }

  function Or(x: nat, y: nat): (z: nat)
    ensures z <= x + y && x <= z && y <= z
    decreases x + y
  {
    if x == 0 then y else if y == 0 then x
    else (if x % 2 == 1 || y % 2 == 1 then 1 else 0) + 2 * Or(x / 2, y / 2)
  }

  function Xor(x: nat, y: nat): (z: nat)
    ensures z <= x + y
    decreases x + y
  {
    if x == 0 then y else if y == 0 then x else (x + y) % 2 + 2 * Xor(x / 2, y / 2)
  }

  lemma HalfStep(x: nat)
    ensures x == 2 * (x / 2) + x % 2
  {
  }

  // ---- Splitting at a bit --------------------------------------------------

  /** Below and above bit k the operator works apart. */
  lemma {:induction false} AndSplit(x: nat, y: nat, a: nat, b: nat, c: nat, d: nat, k: nat)
    requires a < Pow(2, k) && c < Pow(2, k)
    requires x == a + Pow(2, k) * b && y == c + Pow(2, k) * d
    ensures And(x, y) == And(a, c) + Pow(2, k) * And(b, d)
    decreases k
  {
    if k > 0 {
      Halves(x, a, b, k);
      Halves(y, c, d, k);
      AndSplit(x / 2, y / 2, a / 2, b, c / 2, d, k - 1);
      AndUnfold(x, y);
      AndUnfold(a, c);
      TwicePower(k, And(b, d));
    }
  }

  lemma TwicePower(k: nat, z: int)
    requires 0 < k
    ensures Pow(2, k) * z == 2 * (Pow(2, k - 1) * z)
  {
  }

  lemma Halves(x: nat, a: nat, b: nat, k: nat)
    requires 0 < k && a < Pow(2, k) && x == a + Pow(2, k) * b
    ensures a / 2 < Pow(2, k - 1) && x / 2 == a / 2 + Pow(2, k - 1) * b && x % 2 == a % 2
  {
    TwicePower(k, b);
  }

  lemma AndUnfold(x: nat, y: nat)
    ensures And(x, y) == (if x % 2 == 1 && y % 2 == 1 then 1 else 0) + 2 * And(x / 2, y / 2)
  {
  }

  lemma OrUnfold(x: nat, y: nat)
    ensures Or(x, y) == (if x % 2 == 1 || y % 2 == 1 then 1 else 0) + 2 * Or(x / 2, y / 2)
  {
    HalfStep(x);
    HalfStep(y);
  }

  lemma XorUnfold(x: nat, y: nat)
    ensures Xor(x, y) == (x + y) % 2 + 2 * Xor(x / 2, y / 2)
  {
    HalfStep(x);
    HalfStep(y);
  }

  // ---- Masks ---------------------------------------------------------------

  lemma {:induction false} AndAll(x: nat, k: nat)
    requires x < Pow(2, k)
    ensures And(x, Pow(2, k) - 1) == x
    decreases k
  {
    if k > 0 {
      PowPositive(2, k - 1);
      AndAll(x / 2, k - 1);
      AndUnfold(x, Pow(2, k) - 1);
    }
  }

  /** A mask of k ones keeps the low k bits. */
  lemma AndOnes(x: nat, k: nat)
    ensures 0 < Pow(2, k) && And(x, Pow(2, k) - 1) == x % Pow(2, k)
  {
    PowPositive(2, k);
    var p := Pow(2, k);
    DivModFacts(x, p);
    if x / p < 0 {
      MulAway(p, x / p);
    }
    AndSplit(x, p - 1, x % p, x / p, p - 1, 0, k);
    AndAll(x % p, k);
  }

  /** Operands with no bit in common: one a multiple of 2^k, the other below it. */
  lemma {:induction false} OrDisjoint(a: nat, y: nat, b: nat, k: nat)
    requires a < Pow(2, k) && y == Pow(2, k) * b
    ensures Or(a, y) == a + y
    decreases k
  {
    if k > 0 {
      PowPositive(2, k);
      Halves(y, 0, b, k);
      OrDisjoint(a / 2, y / 2, b, k - 1);
      OrUnfold(a, y);
    }
  }

  lemma {:induction false} OrZero(x: nat, y: nat)
    ensures Or(x, y) == 0 <==> x == 0 && y == 0
  {
  }

  // ---- Exclusive or --------------------------------------------------------

  /** Twice with the same operand undoes itself. */
  lemma {:induction false} XorTwice(x: nat, y: nat)
    ensures Xor(Xor(x, y), y) == x
    decreases x + y
  {
    if x != 0 && y != 0 {
      var z := Xor(x, y);
      XorUnfold(x, y);
      assert z / 2 == Xor(x / 2, y / 2) && z % 2 == (x + y) % 2;
      XorUnfold(z, y);
      XorTwice(x / 2, y / 2);
      XorBit(x, y);
    } else if x == 0 {
      XorSelf(y);
    }
  }

  lemma XorBit(x: nat, y: nat)
    ensures forall z: nat :: z % 2 == (x + y) % 2 ==> (z + y) % 2 == x % 2
  {
  }

  lemma {:induction false} XorSelf(x: nat)
    ensures Xor(x, x) == 0
  {
    if x != 0 {
      XorSelf(x / 2);
    }
  }

  /** Nothing is left exactly when the operands are equal. */
  lemma XorZero(x: nat, y: nat)
    ensures Xor(x, y) == 0 <==> x == y
  {
    XorSelf(x);
    if Xor(x, y) == 0 {
      XorTwice(x, y);
    }
  }

  /** Bits that neither operand has do not appear. */
  lemma {:induction false} XorBound(x: nat, y: nat, k: nat)
    requires x < Pow(2, k) && y < Pow(2, k)
    ensures Xor(x, y) < Pow(2, k)
    decreases k
  {
    if k > 0 && x != 0 && y != 0 {
      XorBound(x / 2, y / 2, k - 1);
    }
  }

  lemma {:induction false} OrBound(x: nat, y: nat, k: nat)
    requires x < Pow(2, k) && y < Pow(2, k)
    ensures Or(x, y) < Pow(2, k)
    decreases k
  {
    if k > 0 && x != 0 && y != 0 {
      OrBound(x / 2, y / 2, k - 1);
    }
  }
}
