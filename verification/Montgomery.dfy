/** kernel/bignum.c: Montgomery multiplication in its interleaved form. */
module Montgomery {
  import opened Numbers
  import opened Words
  import opened Limbs
  import opened Bignum

  /** t + a * x over the low j limbs, as a carry loop has it after j steps. */
  ghost predicate Accumulated(d: seq<Word>, t: seq<Word>, x: seq<Word>, a: Word, j: nat, carry: Word) {
    j <= |d| && j <= |t| && j <= |x| &&
    Val(d[..j]) + carry * Weight(j) == Val(t[..j]) + a * Val(x[..j])
  }

  lemma AccumulateTerms(a: int, x: int, t: int, c: int, low: int, high: int, w: int)
    requires a * x + t + c == low + BASE * high
    ensures low * w + high * (BASE * w) == a * (x * w) + t * w + c * w
  {
    calc {
      low * w + high * (BASE * w);
      (low + BASE * high) * w;
      (a * x + t + c) * w;
      (a * x) * w + t * w + c * w;
      a * (x * w) + t * w + c * w;
    }
  }

  lemma AccumulateStep(d: seq<Word>, t: seq<Word>, x: seq<Word>, a: Word, j: nat, carry: Word, low: Word, high: Word)
    requires Accumulated(d, t, x, a, j, carry) && j < |d| && j < |t| && j < |x|
    requires a * x[j] + t[j] + carry == low + BASE * high
    ensures Accumulated(d[j := low], t, x, a, j + 1, high)
  {
    var e := d[j := low];
    assert e[..j] == d[..j];
    ValPrefix(e, j);
    ValPrefix(t, j);
    ValPrefix(x, j);
    AccumulateTerms(a, x[j], t[j], carry, low, high, Weight(j));
    Distribute(a, Val(x[..j]), x[j] * Weight(j));
    assert Weight(j + 1) == BASE * Weight(j);
  }

  lemma Distribute(a: int, b: int, c: int)
    ensures a * (b + c) == a * b + a * c
  {
  }

  /** A product of two words and two more words on top still fit in 64 bits. */
  lemma ProductFits(a: Word, x: Word, t: Word, carry: Word)
    ensures 0 <= a * x + t + carry < BASE64
  {
    MulMono(a, x, BASE - 1, BASE - 1);
  }

  /** The carry loop: t := t + a * x over `count` limbs from `offset` up. */
  method AccumulateLimbs(t: array<Word>, offset: nat, a: Word, x: BigNum, count: nat) returns (carry: Word)
    requires x.Padded() && x.limb != t && offset + count <= t.Length && count <= CAPACITY
    modifies t
    ensures Accumulated(t[offset..], old(t[offset..]), x.limb[..], a, count, carry)
    ensures forall i :: 0 <= i < offset || offset + count <= i < t.Length ==> t[i] == old(t[i])
  {
    ghost var t0, y := t[..], x.limb[..];
    assert t0[offset..] == t[offset..];
    carry := 0;
    for j := 0 to count
      invariant x.limb[..] == y
      invariant forall i :: 0 <= i < offset || offset + j <= i < t.Length ==> t[i] == t0[i]
      invariant Accumulated(t[offset..], t0[offset..], y, a, j, carry)
    {
      var factor := if j < x.count then x.limb[j] else 0;
      ProductFits(a, factor, t[offset + j], carry);
      var value: DWord := a * factor + t[offset + j] + carry;
      var low: Word, high: Word := value % BASE, value / BASE;
      ghost var d := t[offset..];
      AccumulateStep(d, t0[offset..], y, a, j, carry, low, high);
      t[offset + j] := low;
      assert t[offset..] == d[j := low];
      carry := high;
    }
  }

  lemma TopTerms(tk: int, carry: int, top: int, low: int, high: int, w: int)
    requires tk + carry == low + BASE * high
    ensures tk * w + top * (BASE * w) + carry * w == low * w + (top + high) * (BASE * w)
  {
    assert tk * w + carry * w == (tk + carry) * w;
    assert (low + BASE * high) * w == low * w + high * (BASE * w);
    assert (top + high) * (BASE * w) == top * (BASE * w) + high * (BASE * w);
  }

  lemma TwoMore(s: seq<Word>, k: nat)
    requires k + 2 <= |s|
    ensures Val(s[..k + 2]) == Val(s[..k]) + s[k] * Weight(k) + s[k + 1] * (BASE * Weight(k))
    ensures Weight(k + 2) == BASE * (BASE * Weight(k))
  {
    ValPrefix(s, k);
    ValPrefix(s, k + 1);
    assert Weight(k + 1) == BASE * Weight(k);
  }

  /** Where the carry of the loop goes: into the two limbs above, the upper of which does not wrap. */
  lemma AccumulateTop(d: seq<Word>, t: seq<Word>, x: seq<Word>, a: Word, k: nat, carry: Word, low: Word, high: Word)
    requires Accumulated(d, t, x, a, k, carry) && k + 2 <= |d| && k + 2 <= |t|
    requires d[k + 1] == t[k + 1]
    requires Val(t[..k + 2]) + a * Val(x[..k]) < Weight(k + 2)
    requires t[k] as int + carry == low + BASE * high
    ensures d[k + 1] as int + high < BASE
    ensures Val(d[k := low][k + 1 := d[k + 1] + high][..k + 2]) == Val(t[..k + 2]) + a * Val(x[..k])
  {
    var w := Weight(k);
    TwoMore(t, k);
    TopTerms(t[k], carry, t[k + 1], low, high, w);
    MulNonneg(low, w);
    TopLimbFits(t[k + 1] as int + high, BASE * w, Val(d[..k]) + low * w);
    var e := d[k := low][k + 1 := d[k + 1] + high];
    TwoMore(e, k);
    assert e[..k] == d[..k];
  }

  lemma TopLimbFits(top: int, w: int, rest: int)
    requires 0 < w && 0 <= rest && 0 <= top && rest + top * w < BASE * w
    ensures top < BASE
  {
    if top >= BASE {
      MulMono(BASE, w, top, w);
    }
  }

  method AddProduct(t: array<Word>, a: Word, x: BigNum, count: nat)
    requires x.Padded() && x.limb != t && count + 2 <= t.Length && count <= CAPACITY
    requires Val(t[..count + 2]) + a * Val(x.limb[..count]) < Weight(count + 2)
    modifies t
    ensures Val(t[..count + 2]) == old(Val(t[..count + 2])) + a * Val(x.limb[..count])
    ensures forall i :: count + 2 <= i < t.Length ==> t[i] == old(t[i])
  {
    ghost var t0, y := t[..], x.limb[..];
    assert t0[..count + 2] == t[..count + 2] && y[..count] == x.limb[..count];
    assert t0 == t[0..];
    var carry := AccumulateLimbs(t, 0, a, x, count);
    ghost var d := t[0..];
    var sum: DWord := t[count] as int + carry;
    var low: Word, high: Word := sum % BASE, sum / BASE;
    AccumulateTop(d, t0, y, a, count, carry, low, high);
    t[count] := low;
    t[count + 1] := (t[count + 1] as int + high) % BASE;
    assert t[..count + 2] == d[count := low][count + 1 := d[count + 1] + high][..count + 2];
    assert y[..count] == x.limb[..count];
  }

  // ---- The inverse of the low limb -----------------------------------------

  /** One Newton step doubles the number of correct low bits. */
  lemma NewtonStep(v: int, x: int, p: int)
    requires 0 < p && Congruent(v * x, 1, p)
    ensures Congruent(v * (x * (2 - v * x)), 1, p * p)
  {
    var k := CongruentWitness(v * x, 1, p);
    var y := v * x;
    assert v * (x * (2 - y)) == y * (2 - y);
    NewtonTerms(p, k, y);
    MulAway(p, p);
    CongruentFrom(v * (x * (2 - y)), 1, p * p, -(k * k));
  }

  lemma NewtonTerms(p: int, k: int, y: int)
    requires y == 1 + p * k
    ensures y * (2 - y) == 1 + (p * p) * -(k * k)
  {
    var q := p * k;
    assert (1 + q) * (1 - q) == 1 - q * q;
    assert q * q == (p * p) * (k * k);
  }

  lemma CongruentDivides(a: int, b: int, n: int, m: int)
    requires 0 < n && 0 < m && Congruent(a, b, n) && n % m == 0
    ensures Congruent(a, b, m)
  {
    var k := CongruentWitness(a, b, n);
    DivModFacts(n, m);
    assert n * k == m * (n / m * k);
    CongruentFrom(a, b, m, n / m * k);
  }

  /** The step as 32-bit arithmetic does it, on bits that divide 2^32. */
  lemma NewtonWord(v: Word, x: Word, y: Word, p: int, q: int)
    requires 0 < p && Congruent(v * x, 1, p) && 0 < q
    requires (p * p) % q == 0 && BASE % q == 0
    requires y == (x * ((2 - v * x) % BASE)) % BASE
    ensures Congruent(v * y, 1, q)
  {
    MulAway(p, p);
    NewtonStep(v, x, p);
    CongruentDivides(v * (x * (2 - v * x)), 1, p * p, q);
    CongruentMod(2 - v * x, BASE);
    CongruentScale(x, (2 - v * x) % BASE, 2 - v * x, BASE);
    CongruentMod(x * ((2 - v * x) % BASE), BASE);
    CongruentTrans(y, x * ((2 - v * x) % BASE), x * (2 - v * x), BASE);
    CongruentScale(v, y, x * (2 - v * x), BASE);
    CongruentDivides(v * y, v * (x * (2 - v * x)), BASE, q);
    CongruentTrans(v * y, v * (x * (2 - v * x)), 1, q);
  }

  /** The bits that are right after each round, as a power of two. */
  function Correct(round: nat): (p: int)
    ensures 0 < p && BASE % p == 0
  {
    if round == 0 then 8 else if round == 1 then 64 else if round == 2 then 4096 else if round == 3 then 0x100_0000
        else BASE
  }

  /** The square of an odd number is one more than a multiple of eight: the next one lies 8 * half further. */
  lemma {:induction false} OddSquare(half: nat)
    ensures Congruent((2 * half + 1) * (2 * half + 1), 1, 8)
  {
    hide Congruent;
    if half == 0 {
      CongruentFrom(1, 1, 8, 0);
    } else {
      OddSquare(half - 1);
      SquareApart(2 * half - 1);
      var k := CongruentWitness((2 * half - 1) * (2 * half - 1), 1, 8);
      CongruentFrom((2 * half + 1) * (2 * half + 1), 1, 8, k + half);
    }
  }

  lemma SquareApart(n: int)
    ensures (n + 2) * (n + 2) == n * n + 4 * n + 4
  {
  }

  /** -value^-1 mod 2^32. An odd number is its own inverse on three bits, and each of the five rounds doubles that. */
  method InverseOfLimb(value: Word) returns (inverse: Word)
    requires value % 2 == 1
    ensures Congruent(value * inverse, -1, BASE)
  {
    var x := value;
    OddSquare(value / 2);
    for at := 0 to 5
      invariant Congruent(value * x, 1, Correct(at))
    {
      var factor: Word := (2 - value as int * x as int) % BASE;
      var y: Word := (x as int * factor as int) % BASE;
      NewtonWord(value, x, y, Correct(at), Correct(at + 1));
      x := y;
    }
    inverse := (0 - x as int) % BASE;
    CongruentMod(-(x as int), BASE);
    CongruentScale(value, inverse, -(x as int), BASE);
    CongruentScale(-1, value * x, 1, BASE);
    assert value * -(x as int) == -1 * (value * x);
    CongruentTrans(value * inverse, value * -(x as int), -1, BASE);
  }

  // ---- One round -----------------------------------------------------------

  /** The multiple of the modulus a round adds clears the lowest limb. */
  lemma LowLimbClears(t: Word, m: Word, n: Word, inverse: Word)
    requires Congruent(n * inverse, -1, BASE) && m == (t as int * inverse as int) % BASE
    ensures Congruent(t + m * n, 0, BASE)
  {
    CongruentMod(t as int * inverse as int, BASE);
    CongruentScale(n, m, t as int * inverse as int, BASE);
    CongruentScale(t, n * inverse, -1, BASE);
    assert n * (t as int * inverse as int) == t * (n * inverse);
    assert n * m == m * n && t * -1 == -(t as int);
    CongruentTrans(m * n, t * (n * inverse), -(t as int), BASE);
    CongruentMod(t, BASE);
    CongruentAdd(t, t, m * n, -(t as int), BASE);
  }

  /** With right no larger than the modulus a round never brings the accumulator to twice the modulus. */
  lemma RoundResult(t: int, a: Word, right: int, m: Word, n: int, next: int)
    requires 0 <= t < 2 * n && 0 <= right <= n
    requires BASE * next == t + a * right + m * n
    ensures next < 2 * n && Congruent(BASE * next, t + a * right, n)
  {
    MulMono(a, right, BASE - 1, n);
    MulMono(m, n, BASE - 1, n);
    assert m * n == n * m;
    CongruentFrom(BASE * next, t + a * right, n, m);
  }

  lemma SumFits(t: int, a: Word, right: int, n: int, w: int)
    requires 0 <= t < 2 * n && 0 <= right <= n < w
    ensures t + a * right < BASE * (BASE * w)
    ensures forall m: Word :: t + a * right + m * n < BASE * (BASE * w)
  {
    MulMono(a, right, BASE - 1, n);
    forall m: Word
      ensures t + a * right + m * n < BASE * (BASE * w)
    {
      MulMono(m, n, BASE - 1, n);
    }
  }

  /** Shifting the cleared limb off is a division by 2^32. */
  method DropLowLimb(t: array<Word>, count: nat)
    requires count + 3 <= t.Length && t[count + 2] == 0
    requires Val(t[..count + 2]) % BASE == 0
    modifies t
    ensures BASE * Val(t[..count + 2]) == old(Val(t[..count + 2])) && t[count + 2] == 0
  {
    ghost var s := t[..];
    assert s[..count + 2] == t[..count + 2];
    ValHead(s[..count + 2]);
    for j := 0 to count + 2
      invariant forall i :: 0 <= i < j ==> t[i] == s[i + 1]
      invariant forall i :: j <= i < t.Length ==> t[i] == s[i]
    {
      t[j] := t[j + 1];
    }
    t[count + 2] := 0;
    ghost var u := t[..count + 2];
    assert u[..count + 1] == s[..count + 2][1..];
    ValPad(u, count + 1);
  }

  /** One limb of the product and one step of the reduction. */
  method Round(t: array<Word>, a: Word, right: BigNum, modulus: BigNum, inverse: Word)
    requires right.Valid() && modulus.Valid() && right.limb != t && modulus.limb != t
    requires 0 < modulus.count <= MAX_LIMBS && modulus.count + 3 <= t.Length && t[modulus.count + 2] == 0
    requires right.Value() <= modulus.Value() && Val(t[..modulus.count + 2]) < 2 * modulus.Value()
    requires Congruent(modulus.limb[0] * inverse, -1, BASE)
    modifies t
    ensures t[modulus.count + 2] == 0 && Val(t[..modulus.count + 2]) < 2 * modulus.Value()
    ensures modulus.Value() > 0
    ensures Congruent(BASE * Val(t[..modulus.count + 2]), old(Val(t[..modulus.count + 2])) + a * right.Value(),
            modulus.Value())
  {
    hide Val;
    var count := modulus.count;
    ghost var before, b, n := Val(t[..count + 2]), right.Value(), modulus.Value();
    ValBound(modulus.limb[..count]);
    RightCount(right, modulus);
    right.ValueUpTo(count);
    assert Weight(count + 2) == BASE * (BASE * Weight(count)) by { assert Weight(count + 1) == BASE * Weight(count); }
    SumFits(before, a, b, n, Weight(count));
    AddProduct(t, a, right, count);
    var m: Word := (t[0] as int * inverse as int) % BASE;
    Clears(t[..count + 2], modulus.limb[..count], m, inverse);
    AddProduct(t, m, modulus, count);
    DropLowLimb(t, count);
    RoundResult(before, a, b, m, n, Val(t[..count + 2]));
  }

  lemma RightCount(right: BigNum, modulus: BigNum)
    requires right.Valid() && modulus.Valid() && right.Value() <= modulus.Value()
    ensures right.count <= modulus.count
  {
    if right.count > modulus.count {
      ValLonger(modulus.limb[..modulus.count], right.limb[..right.count]);
    }
  }

  lemma Clears(t: seq<Word>, n: seq<Word>, m: Word, inverse: Word)
    requires |t| > 0 && |n| > 0
    requires Congruent(n[0] * inverse, -1, BASE) && m == (t[0] as int * inverse as int) % BASE
    ensures (Val(t) + m * Val(n)) % BASE == 0
  {
    ValHead(t);
    ValHead(n);
    LowLimbClears(t[0], m, n[0], inverse);
    ClearedSum(t[0], Val(t[1..]), m, n[0], Val(n[1..]));
  }

  lemma ClearedSum(t: Word, high: int, m: Word, n: Word, above: int)
    requires Congruent(t + m * n, 0, BASE)
    ensures ((t + BASE * high) + m * (n + BASE * above)) % BASE == 0
  {
    var k := CongruentWitness(t + m * n, 0, BASE);
    assert m * (n + BASE * above) == m * n + BASE * (m * above);
    assert (t + BASE * high) + m * (n + BASE * above) == BASE * (k + high + m * above);
  }

  // ---- The whole product ---------------------------------------------------

  lemma RoundsSoFar(before: int, after: int, a: int, done: int, right: int, w: int, n: int)
    requires 0 < n && Congruent(BASE * after, before + a * right, n) && Congruent(before * w, done * right, n)
    ensures Congruent(after * (BASE * w), (done + a * w) * right, n)
  {
    CongruentScale(w, BASE * after, before + a * right, n);
    assert w * (BASE * after) == after * (BASE * w);
    assert w * (before + a * right) == before * w + (a * w) * right;
    CongruentFrom((a * w) * right, (a * w) * right, n, 0);
    CongruentAdd(before * w, done * right, (a * w) * right, (a * w) * right, n);
    assert done * right + (a * w) * right == (done + a * w) * right;
    CongruentTrans(after * (BASE * w), before * w + (a * w) * right, (done + a * w) * right, n);
  }

  /** All rounds: the accumulator ends as left * right * 2^(-32 count), below twice the modulus. */
  method Rounds(t: array<Word>, left: BigNum, right: BigNum, modulus: BigNum, inverse: Word)
    requires left.Valid() && right.Valid() && modulus.Valid()
    requires left.limb != t && right.limb != t && modulus.limb != t && t.Length == CAPACITY + 1
    requires 0 < modulus.count <= MAX_LIMBS && forall i :: 0 <= i < modulus.count + 3 ==> t[i] == 0
    requires left.count <= modulus.count && right.Value() <= modulus.Value()
    requires Congruent(modulus.limb[0] * inverse, -1, BASE)
    modifies t
    ensures modulus.Value() > 0 && Val(t[..modulus.count + 2]) < 2 * modulus.Value()
    ensures Congruent(Val(t[..modulus.count + 2]) * Weight(modulus.count), left.Value() * right.Value(),
            modulus.Value())
  {
    hide Congruent;
    var count := modulus.count;
    ValTop(modulus.limb[..count]);
    ghost var x, b, n := left.limb[..], right.Value(), modulus.Value();
    ValZero(t[..count + 2]);
    CongruentFrom(0, 0, n, 0);
    for i := 0 to count
      invariant t[count + 2] == 0 && Val(t[..count + 2]) < 2 * n
      invariant Congruent(Val(t[..count + 2]) * Weight(i), Val(x[..i]) * b, n)
    {
      var a := if i < left.count then left.limb[i] else 0;
      ghost var before := Val(t[..count + 2]);
      Round(t, a, right, modulus, inverse);
      RoundsSoFar(before, Val(t[..count + 2]), a, Val(x[..i]), b, Weight(i), n);
      ValPrefix(x, i);
      assert Weight(i + 1) == BASE * Weight(i);
    }
    left.ValueUpTo(count);
    assert x[..count] == left.limb[..count];
  }

  /** Copies the limbs in play into the result and clears the rest. */
  method Unload(out: BigNum, t: array<Word>, count: nat)
    requires out.limb.Length == CAPACITY && out.limb != t && count + 1 <= CAPACITY && count + 2 <= t.Length
    requires Val(t[..count + 2]) < Weight(count + 1)
    modifies out, out.limb
    ensures out.Valid() && out.Value() == Val(t[..count + 2])
  {
    ValPrefix(t[..count + 2], count + 1);
    assert t[..count + 2][..count + 1] == t[..count + 1];
    TopLimbZero(t[count + 1], Weight(count + 1), Val(t[..count + 1]));
    for at := 0 to count + 1
      modifies out.limb
      invariant forall i :: 0 <= i < at ==> out.limb[i] == t[i]
    {
      out.limb[at] := t[at];
    }
    for at := count + 1 to CAPACITY
      modifies out.limb
      invariant forall i :: 0 <= i < count + 1 ==> out.limb[i] == t[i]
      invariant forall i :: count + 1 <= i < at ==> out.limb[i] == 0
    {
      out.limb[at] := 0;
    }
    out.count := count + 1;
    assert out.limb[..count + 1] == t[..count + 1];
    out.Trim();
  }

  lemma TopLimbZero(top: nat, w: int, rest: nat)
    requires 0 < w && rest + top * w < w
    ensures top == 0
  {
    if top > 0 {
      MulMono(1, w, top, w);
    }
  }

  method Cleared(count: nat) returns (t: array<Word>)
    requires count <= CAPACITY + 1
    ensures fresh(t) && t.Length == CAPACITY + 1 && forall i :: 0 <= i < count ==> t[i] == 0
  {
    t := new Word[CAPACITY + 1];
    for at := 0 to count
      invariant forall i :: 0 <= i < at ==> t[i] == 0
    {
      t[at] := 0;
    }
  }

  /** out = left * right * 2^(-32 count) mod modulus. `out` may be either operand: everything is read before it is
      written. */
  method MontgomeryMultiply(out: BigNum, left: BigNum, right: BigNum, modulus: BigNum, inverse: Word)
    requires out.Padded() && left.Valid() && right.Valid() && modulus.Valid()
    requires out != modulus && out.limb != modulus.limb
    requires 0 < modulus.count <= MAX_LIMBS && modulus.limb[0] % 2 == 1
    requires left.count <= modulus.count && right.Value() <= modulus.Value()
    requires Congruent(modulus.limb[0] * inverse, -1, BASE)
    modifies out, out.limb
    ensures out.Valid() && out.Value() < modulus.Value()
    ensures Congruent(out.Value() * Weight(modulus.count), old(left.Value() * right.Value()), modulus.Value())
  {
    var t := Cleared(modulus.count + 3);
    Rounds(t, left, right, modulus, inverse);
    ghost var r, n, w := Val(t[..modulus.count + 2]), modulus.Value(), Weight(modulus.count);
    ghost var product := left.Value() * right.Value();
    ValBound(modulus.limb[..modulus.count]);
    assert Weight(modulus.count + 1) == BASE * w;
    Unload(out, t, modulus.count);
    SubtractOnce(out, modulus, w, product);
  }

  /** Below twice the modulus one conditional subtraction is enough. */
  method SubtractOnce(out: BigNum, modulus: BigNum, ghost w: int, ghost product: int)
    requires out.Valid() && modulus.Valid() && out != modulus && out.limb != modulus.limb
    requires 0 < modulus.Value() && out.Value() < 2 * modulus.Value()
    requires Congruent(out.Value() * w, product, modulus.Value())
    modifies out, out.limb
    ensures out.Valid() && out.Value() < modulus.Value()
    ensures Congruent(out.Value() * w, product, modulus.Value())
  {
    var order := Compare(out, modulus);
    if order >= 0 {
      OnceLess(out.Value(), modulus.Value(), w, product);
      Subtract(out, modulus);
    }
  }

  lemma OnceLess(r: int, n: int, w: int, product: int)
    requires 0 < n && Congruent(r * w, product, n)
    ensures Congruent((r - n) * w, product, n)
  {
    assert (r - n) * w == r * w + n * -w;
    CongruentFrom((r - n) * w, r * w, n, -w);
    CongruentTrans((r - n) * w, r * w, product, n);
  }
}
