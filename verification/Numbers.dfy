/** Integer arithmetic shared by the models: powers, congruence, divisibility and primes. */
module Numbers {

  function Pow(base: int, exponent: nat): int {
    if exponent == 0 then 1 else base * Pow(base, exponent - 1)
  }

  // ---- Multiplication ------------------------------------------------------

  lemma MulMono(a: int, b: int, c: int, d: int)
    requires 0 <= a <= c && 0 <= b <= d
    ensures 0 <= a * b <= c * d
  {
    assert a * b <= c * b <= c * d;
  }

  lemma MulNonneg(a: int, b: int)
    requires 0 <= a && 0 <= b
    ensures 0 <= a * b
  {
  }

  /** A product of n with a nonzero factor is at least n away from zero. */
  lemma MulAway(n: int, k: int)
    requires 0 < n
    ensures k >= 1 ==> n * k >= n
    ensures k <= -1 ==> n * k <= -n
  {
    if k >= 1 {
      MulMono(n, 1, n, k);
    } else if k <= -1 {
      MulMono(n, 1, n, -k);
    }
  }

  // ---- Division ------------------------------------------------------------

  lemma DivModUnique(x: int, n: int, q: int, r: int)
    requires 0 < n && 0 <= r < n && x == n * q + r
    ensures x / n == q && x % n == r
  {
    var k := q - x / n;
    assert n * k == n * q - n * (x / n);
    assert x == n * (x / n) + x % n;
    MulAway(n, k);
  }

  lemma DivModFacts(x: int, n: int)
    requires 0 < n
    ensures x == n * (x / n) + x % n && 0 <= x % n < n
  {
  }

  lemma DivBelow(x: int, n: int, bound: int)
    requires 0 < n && x < n * bound
    ensures x / n < bound
  {
    DivModFacts(x, n);
  }

  // ---- Powers --------------------------------------------------------------

  lemma {:induction false} PowPositive(base: int, exponent: nat)
    requires 0 < base
    ensures 0 < Pow(base, exponent)
  {
    if exponent > 0 {
      PowPositive(base, exponent - 1);
      MulAway(base, Pow(base, exponent - 1));
    }
  }

  lemma {:induction false} PowAdd(base: int, m: nat, n: nat)
    ensures Pow(base, m + n) == Pow(base, m) * Pow(base, n)
  {
    if m == 0 {
    } else {
      PowAdd(base, m - 1, n);
      assert Pow(base, m + n) == base * Pow(base, m - 1 + n);
      assert base * (Pow(base, m - 1) * Pow(base, n)) == (base * Pow(base, m - 1)) * Pow(base, n);
    }
  }

  lemma PowOne(base: int)
    ensures Pow(base, 1) == base
  {
    assert Pow(base, 1) == base * Pow(base, 0);
  }

  lemma {:induction false} PowMul(base: int, m: nat, n: nat)
    ensures 0 <= m * n
    ensures Pow(Pow(base, m), n) == Pow(base, m * n)
  {
    MulNonneg(m, n);
    if n == 0 {
      assert m * n == 0;
    } else {
      PowMul(base, m, n - 1);
      assert m * n == m + m * (n - 1);
      PowAdd(base, m, m * (n - 1));
    }
  }

  lemma {:induction false} PowMono(base: int, m: nat, n: nat)
    requires 1 <= base && m <= n
    ensures 1 <= Pow(base, m) <= Pow(base, n)
  {
    PowPositive(base, m);
    PowPositive(base, n - m);
    PowAdd(base, m, n - m);
    MulMono(Pow(base, m), 1, Pow(base, m), Pow(base, n - m));
  }

  // ---- Congruence ----------------------------------------------------------

  predicate Congruent(a: int, b: int, n: int)
    requires 0 < n
  {
    (a - b) % n == 0
  }

  lemma CongruentWitness(a: int, b: int, n: int) returns (k: int)
    requires 0 < n && Congruent(a, b, n)
    ensures a == b + n * k
  {
    k := (a - b) / n;
    DivModFacts(a - b, n);
  }

  lemma CongruentFrom(a: int, b: int, n: int, k: int)
    requires 0 < n && a == b + n * k
    ensures Congruent(a, b, n)
  {
    DivModUnique(a - b, n, k, 0);
  }

  lemma CongruentSym(a: int, b: int, n: int)
    requires 0 < n && Congruent(a, b, n)
    ensures Congruent(b, a, n)
  {
    var k := CongruentWitness(a, b, n);
    assert n * -k == -(n * k);
    CongruentFrom(b, a, n, -k);
  }

  lemma CongruentTrans(a: int, b: int, c: int, n: int)
    requires 0 < n && Congruent(a, b, n) && Congruent(b, c, n)
    ensures Congruent(a, c, n)
  {
    var j := CongruentWitness(a, b, n);
    var k := CongruentWitness(b, c, n);
    assert n * (j + k) == n * j + n * k;
    CongruentFrom(a, c, n, j + k);
  }

  lemma CongruentAdd(a: int, b: int, c: int, d: int, n: int)
    requires 0 < n && Congruent(a, b, n) && Congruent(c, d, n)
    ensures Congruent(a + c, b + d, n)
  {
    var j := CongruentWitness(a, b, n);
    var k := CongruentWitness(c, d, n);
    assert n * (j + k) == n * j + n * k;
    CongruentFrom(a + c, b + d, n, j + k);
  }

  lemma CongruentScale(c: int, a: int, b: int, n: int)
    requires 0 < n && Congruent(a, b, n)
    ensures Congruent(c * a, c * b, n)
  {
    var k := CongruentWitness(a, b, n);
    assert c * a == c * b + n * (c * k);
    CongruentFrom(c * a, c * b, n, c * k);
  }

  lemma CongruentMul(a: int, b: int, c: int, d: int, n: int)
    requires 0 < n && Congruent(a, b, n) && Congruent(c, d, n)
    ensures Congruent(a * c, b * d, n)
  {
    CongruentScale(c, a, b, n);
    CongruentScale(b, c, d, n);
    assert c * a == a * c && c * b == b * c;
    CongruentTrans(a * c, b * c, b * d, n);
  }

  lemma CongruentMod(a: int, n: int)
    requires 0 < n
    ensures Congruent(a % n, a, n) && Congruent(a, a % n, n)
  {
    DivModFacts(a, n);
    CongruentFrom(a, a % n, n, a / n);
    CongruentSym(a, a % n, n);
  }

  /** A residue is determined by its class. */
  lemma CongruentResidue(a: int, b: int, n: int)
    requires 0 < n && Congruent(a, b, n)
    ensures a % n == b % n
    ensures 0 <= b < n ==> a % n == b
    ensures 0 <= b < n && 0 <= a < n ==> a == b
  {
    var k := CongruentWitness(a, b, n);
    DivModFacts(b, n);
    assert n * (b / n + k) == n * (b / n) + n * k;
    DivModUnique(a, n, b / n + k, b % n);
    if 0 <= b < n {
      DivModUnique(b, n, 0, b);
      if 0 <= a < n {
        DivModUnique(a, n, 0, a);
      }
    }
  }

  lemma ResidueCongruent(a: int, b: int, n: int)
    requires 0 < n && a % n == b % n
    ensures Congruent(a, b, n)
  {
    CongruentMod(a, n);
    CongruentMod(b, n);
    CongruentTrans(a, a % n, b, n);
  }

  /** A factor 2 may be cancelled modulo an odd number. */
  lemma CongruentHalve(a: int, b: int, n: int)
    requires 0 < n && n % 2 == 1 && Congruent(2 * a, 2 * b, n)
    ensures Congruent(a, b, n)
  {
    var k := CongruentWitness(2 * a, 2 * b, n);
    var h := n / 2;
    assert n == 2 * h + 1;
    assert n * k == 2 * (h * k) + k;
    assert k % 2 == 0;
    var j := k / 2;
    assert n * k == n * (2 * j) == 2 * (n * j);
    CongruentFrom(a, b, n, j);
  }

  /** Any power of two may be cancelled modulo an odd number. */
  lemma {:induction false} CongruentCancelPow2(a: int, b: int, e: nat, n: int)
    requires 0 < n && n % 2 == 1 && Congruent(a * Pow(2, e), b * Pow(2, e), n)
    ensures Congruent(a, b, n)
  {
    if e > 0 {
      var p := Pow(2, e - 1);
      assert a * (2 * p) == 2 * (a * p) && b * (2 * p) == 2 * (b * p);
      CongruentHalve(a * p, b * p, n);
      CongruentCancelPow2(a, b, e - 1, n);
    }
  }
}
