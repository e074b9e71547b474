/** Fermat's little theorem, which is what makes x^(p-2) an inverse modulo a prime p. */
module Primes {
  import opened Numbers

  ghost predicate Prime(p: int) {
    2 <= p && forall d :: 2 <= d < p ==> p % d != 0
  }

  /** Euclid's lemma for a factor below the prime, by descent on that factor. */
  lemma {:induction false} EuclidBelow(a: int, b: int, p: int)
    requires Prime(p) && 1 <= a < p && Congruent(a * b, 0, p)
    ensures Congruent(b, 0, p)
    decreases a
  {
    if a == 1 {
    } else {
      var q, r := p / a, p % a;
      DivModFacts(p, a);
      var k := CongruentWitness(a * b, 0, p);
      assert p * b == (a * q + r) * b == q * (a * b) + r * b;
      assert q * (p * k) == p * (q * k);
      assert r * b == p * (b - q * k);
      CongruentFrom(r * b, 0, p, b - q * k);
      EuclidBelow(r, b, p);
    }
  }

  lemma Euclid(a: int, b: int, p: int)
    requires Prime(p) && Congruent(a * b, 0, p) && !Congruent(a, 0, p)
    ensures Congruent(b, 0, p)
  {
    var r := a % p;
    CongruentMod(a, p);
    CongruentScale(b, r, a, p);
    assert b * r == r * b && b * a == a * b;
    CongruentTrans(r * b, a * b, 0, p);
    if r == 0 {
      assert false;
    }
    EuclidBelow(r, b, p);
  }

  function Choose(n: nat, k: nat): nat {
    if k == 0 then 1 else if n == 0 then 0 else Choose(n - 1, k - 1) + Choose(n - 1, k)
  }

  lemma {:induction false} ChooseEdge(n: nat, k: nat)
    requires n <= k
    ensures Choose(n, k) == if n == k then 1 else 0
  {
    if n > 0 {
      ChooseEdge(n - 1, k - 1);
      ChooseEdge(n - 1, k);
    }
  }

  lemma {:induction false} ChooseAbsorb(n: nat, k: nat)
    requires 1 <= k && 1 <= n
    ensures k * Choose(n, k) == n * Choose(n - 1, k - 1)
  {
    if n == 1 {
      ChooseEdge(0, k - 1);
      ChooseEdge(1, k);
    } else if k == 1 {
      ChooseAbsorb(n - 1, 1);
    } else {
      ChooseAbsorb(n - 1, k);
      ChooseAbsorb(n - 1, k - 1);
      AbsorbStep(k, n, Choose(n - 2, k - 2), Choose(n - 2, k - 1), Choose(n - 1, k - 1), Choose(n - 1, k));
    }
  }

  lemma AbsorbStep(k: int, n: int, c: int, d: int, e: int, f: int)
    requires e == c + d && k * f == (n - 1) * d && (k - 1) * e == (n - 1) * c
    ensures k * (e + f) == n * e
  {
    calc {
      k * (e + f);
      (k - 1) * e + e + k * f;
      (n - 1) * c + (n - 1) * d + e;
      (n - 1) * e + e;
      n * e;
    }
  }

  /** The first k terms of the expansion of (a + 1)^n. */
  function Expansion(a: int, n: nat, k: nat): int {
    if k == 0 then 0 else Expansion(a, n, k - 1) + Choose(n, k - 1) * Pow(a, k - 1)
  }

  lemma {:induction false} ExpansionStep(a: int, n: nat, k: nat)
    ensures Expansion(a, n + 1, k + 1) == Expansion(a, n, k + 1) + a * Expansion(a, n, k)
  {
    if k == 0 {
      assert Expansion(a, n + 1, 1) == Expansion(a, n + 1, 0) + 1 * Pow(a, 0);
      assert Expansion(a, n, 1) == Expansion(a, n, 0) + 1 * Pow(a, 0);
    } else {
      ExpansionStep(a, n, k - 1);
      assert Choose(n + 1, k) == Choose(n, k - 1) + Choose(n, k);
      ExpansionTerm(a, Choose(n, k - 1), Choose(n, k), Pow(a, k - 1), Expansion(a, n, k - 1));
    }
  }

  lemma ExpansionTerm(a: int, c: int, d: int, p: int, sum: int)
    ensures (c + d) * (a * p) == d * (a * p) + a * (c * p)
    ensures a * (sum + c * p) == a * sum + a * (c * p)
  {
  }

  lemma {:induction false} Binomial(a: int, n: nat)
    ensures Pow(a + 1, n) == Expansion(a, n, n + 1)
  {
    if n == 0 {
      assert Expansion(a, 0, 1) == Expansion(a, 0, 0) + 1 * Pow(a, 0);
    } else {
      Binomial(a, n - 1);
      ExpansionStep(a, n - 1, n);
      ChooseEdge(n - 1, n);
      assert Expansion(a, n - 1, n + 1) == Expansion(a, n - 1, n) + 0 * Pow(a, n);
      assert (a + 1) * Expansion(a, n - 1, n) == a * Expansion(a, n - 1, n) + Expansion(a, n - 1, n);
    }
  }

  /** Every inner binomial coefficient of a prime is a multiple of it. */
  lemma ChoosePrime(p: nat, k: nat)
    requires Prime(p) && 1 <= k < p
    ensures Congruent(Choose(p, k), 0, p)
  {
    ChooseAbsorb(p, k);
    CongruentFrom(k * Choose(p, k), 0, p, Choose(p - 1, k - 1));
    EuclidBelow(k, Choose(p, k), p);
  }

  lemma {:induction false} ExpansionPrime(a: int, p: nat, k: nat)
    requires Prime(p) && 1 <= k <= p
    ensures Congruent(Expansion(a, p, k), 1, p)
  {
    if k == 1 {
      assert Expansion(a, p, 1) == Expansion(a, p, 0) + 1 * Pow(a, 0);
    } else {
      ExpansionPrime(a, p, k - 1);
      ChoosePrime(p, k - 1);
      CongruentScale(Pow(a, k - 1), Choose(p, k - 1), 0, p);
      assert Pow(a, k - 1) * Choose(p, k - 1) == Choose(p, k - 1) * Pow(a, k - 1);
      CongruentAdd(Expansion(a, p, k - 1), 1, Choose(p, k - 1) * Pow(a, k - 1), 0, p);
    }
  }

  lemma {:induction false} FermatPower(a: nat, p: nat)
    requires Prime(p)
    ensures Congruent(Pow(a, p), a, p)
  {
    if a == 0 {
    } else {
      FermatPower(a - 1, p);
      Binomial(a - 1, p);
      ExpansionPrime(a - 1, p, p);
      ChooseEdge(p, p);
      assert Expansion(a - 1, p, p + 1) == Expansion(a - 1, p, p) + 1 * Pow(a - 1, p);
      CongruentAdd(Expansion(a - 1, p, p), 1, Pow(a - 1, p), a - 1, p);
    }
  }

  /** Fermat's little theorem: a^(p-1) is one modulo a prime p that does not divide a. */
  lemma Fermat(a: nat, p: nat)
    requires Prime(p) && a % p != 0
    ensures Congruent(Pow(a, p - 1), 1, p)
  {
    FermatPower(a, p);
    var x := Pow(a, p - 1);
    var k := CongruentWitness(Pow(a, p), a, p);
    assert a * (x - 1) == a * x - a == p * k;
    CongruentFrom(a * (x - 1), 0, p, k);
    Euclid(a, x - 1, p);
    var j := CongruentWitness(x - 1, 0, p);
    CongruentFrom(x, 1, p, j);
  }
}
