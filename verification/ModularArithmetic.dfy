/** kernel/bignum.c: the cached constants, multiplication, powers, inverses, sums and differences modulo a number. */
module ModularArithmetic {
  import opened Numbers
  import opened Words
  import opened Limbs
  import opened Bignum
  import opened LongDivision
  import opened Montgomery
  import opened Primes

  const MONTGOMERY_CACHE := 4

  /** MONTGOMERY: what is worked out once per modulus. */
  class Entry {
    const modulus: BigNum
    const rSquared: BigNum
    var inverse: Word
    var used: bool
    ghost const Repr: set<object>

    constructor ()
      ensures Valid() && !used && fresh(Repr)
    {
      var n := new BigNum();
      var r := new BigNum();
      modulus := n;
      rSquared := r;
      inverse := 0;
      used := false;
      Repr := {this, n, n.limb, r, r.limb};
    }

    ghost predicate Shaped()
      reads this, Repr
    {
      this in Repr && modulus in Repr && modulus.limb in Repr && rSquared in Repr && rSquared.limb in Repr &&
      modulus != rSquared && modulus.limb != rSquared.limb && modulus.Valid() && rSquared.Valid()
    }

    /** The constants are those of this modulus. */
    ghost predicate Right()
      reads this, Repr
    {
      Shaped() && 0 < modulus.count <= MAX_LIMBS && modulus.limb[0] % 2 == 1 && 0 < modulus.Value() &&
      Congruent(modulus.limb[0] * inverse, -1, BASE) &&
      rSquared.Value() <= modulus.Value() &&
      Congruent(rSquared.Value(), Pow(2, 64 * modulus.count), modulus.Value())
    }

    ghost predicate Valid()
      reads this, Repr
    {
      Shaped() && (used ==> Right())
    }
  }

  lemma DoubledResidue(v: int, p: int, n: int)
    requires 0 < n && 0 <= v <= n && Congruent(v, p, n)
    ensures Congruent(2 * v, 2 * p, n) && Congruent(2 * v - n, 2 * p, n)
  {
    CongruentScale(2, v, p, n);
    CongruentFrom(2 * v - n, 2 * v, n, -1);
    CongruentTrans(2 * v - n, 2 * v, 2 * p, n);
  }

  /** R^2 mod n, by doubling 64 times per limb. For a modulus of one the answer is left as one. */
  method SquareOfR(value: BigNum, modulus: BigNum)
    requires value.limb.Length == CAPACITY && modulus.Valid() && value != modulus && value.limb != modulus.limb
    requires 0 < modulus.count <= MAX_LIMBS
    modifies value, value.limb
    ensures value.Valid() && 0 < modulus.Value() && value.Value() <= modulus.Value()
    ensures Congruent(value.Value(), Pow(2, 64 * modulus.count), modulus.Value())
  {
    hide Congruent, Entry.Shaped, Entry.Valid, Val, Weight;
    ValTop(modulus.limb[..modulus.count]);
    ghost var n := modulus.Value();
    value.Small(1);
    CongruentFrom(1, 1, n, 0);
    for at := 0 to modulus.count * 64
      modifies value, value.limb
      invariant value.Valid() && value.Value() <= n && Congruent(value.Value(), Pow(2, at), n)
    {
      DoubledResidue(value.Value(), Pow(2, at), n);
      DoubleFits(value.Value(), modulus.limb[..modulus.count], value.limb.Length);
      ShiftLeftOne(value);
      var order := Compare(value, modulus);
      if order >= 0 {
        Subtract(value, modulus);
      }
    }
  }

  lemma SameLimbs(a: BigNum, b: BigNum)
    requires a.Valid() && b.Valid() && a.Value() == b.Value()
    ensures a.count == b.count && (a.count > 0 ==> a.limb[0] == b.limb[0])
  {
    var s, t := a.limb[..a.count], b.limb[..b.count];
    if |s| < |t| {
      ValLonger(s, t);
    } else if |t| < |s| {
      ValLonger(t, s);
    } else if |s| > 0 {
      ValHead(s);
      ValHead(t);
    }
  }

  method Fill(entry: Entry, modulus: BigNum)
    requires entry.Shaped() && modulus.Valid() && 0 < modulus.count <= MAX_LIMBS && modulus.limb[0] % 2 == 1
    requires modulus !in entry.Repr && modulus.limb !in entry.Repr
    modifies entry.Repr
    ensures entry.Right() && entry.used
    ensures entry.modulus.Value() == modulus.Value()
    ensures entry.modulus.count == modulus.count && entry.modulus.limb[0] == modulus.limb[0]
  {
    entry.modulus.CopyFrom(modulus);
    SameLimbs(entry.modulus, modulus);
    entry.inverse := InverseOfLimb(modulus.limb[0]);
    SquareOfR(entry.rSquared, modulus);
    entry.used := true;
  }

  /** Everything some entries are stored in. */
  ghost function Storage(entries: seq<Entry>): set<object> {
    set e, o | e in entries && o in e.Repr :: o
  }

  method NewEntries() returns (entries: seq<Entry>)
    ensures |entries| == MONTGOMERY_CACHE
    ensures forall i :: 0 <= i < |entries| ==> entries[i].Valid() && !entries[i].used && fresh(entries[i].Repr)
    ensures forall i, j :: 0 <= i < j < |entries| ==> entries[i].Repr !! entries[j].Repr
  {
    hide Entry.Right, Entry.Shaped;
    entries := [];
    for k := 0 to MONTGOMERY_CACHE
      invariant |entries| == k
      invariant forall i :: 0 <= i < k ==> entries[i].Valid() && !entries[i].used && fresh(entries[i].Repr)
      invariant forall i, j :: 0 <= i < j < k ==> entries[i].Repr !! entries[j].Repr
    {
      var entry := new Entry();
      entries := entries + [entry];
    }
  }

  /** The file's static state: four entries, refilled in turn. */
  class Engine {
    const cache: seq<Entry>
    var next: nat
    ghost const Repr: set<object>

    /** Every entry in use holds the constants of its modulus, and no two entries share storage. */
    ghost predicate Valid()
      reads this, Repr
    {
      this in Repr && |cache| == MONTGOMERY_CACHE && next < MONTGOMERY_CACHE &&
      (forall i :: 0 <= i < |cache| ==>
        cache[i] in Repr && cache[i].Repr <= Repr && this !in cache[i].Repr && cache[i].Valid()) &&
      (forall i, j :: 0 <= i < j < |cache| ==> cache[i].Repr !! cache[j].Repr)
    }

    constructor ()
      ensures Valid() && fresh(Repr)
    {
      var entries := NewEntries();
      cache := entries;
      next := 0;
      Repr := {this} + Storage(entries);
    }

    ghost predicate Outside(a: BigNum) {
      a !in Repr && a.limb !in Repr
    }

    /** What a caller may rely on about an entry it was handed. */
    ghost predicate Serves(entry: Entry, modulus: BigNum)
      reads this, Repr, modulus, modulus.limb
    {
      entry in cache && entry in Repr && entry.Repr <= Repr && entry.Right() && modulus.Valid() &&
      entry.modulus.Value() == modulus.Value() && entry.modulus.count == modulus.count &&
      0 < modulus.count && entry.modulus.limb[0] == modulus.limb[0]
    }

    method Lookup(modulus: BigNum) returns (found: Entry?)
      requires Valid() && modulus.Valid() && 0 < modulus.count
      ensures found != null ==> Serves(found, modulus)
    {
      for at := 0 to MONTGOMERY_CACHE {
        if cache[at].used {
          var order := Compare(cache[at].modulus, modulus);
          if order == 0 {
            SameLimbs(cache[at].modulus, modulus);
            return cache[at];
          }
        }
      }
      return null;
    }

    /** The entry holding the constants of this modulus, or null for one that is zero or even. */
    method Prepare(modulus: BigNum) returns (found: Entry?)
      requires Valid() && modulus.Valid() && modulus.count <= MAX_LIMBS && Outside(modulus)
      modifies Repr
      ensures Valid()
      ensures found == null <==> modulus.count == 0 || modulus.limb[0] % 2 == 0
      ensures found != null ==> Serves(found, modulus)
    {
      hide BigNum.Value, Congruent, Entry.Right, Pow, Val, Weight;
      if modulus.count == 0 || modulus.limb[0] % 2 == 0 {
        return null;
      }
      found := Lookup(modulus);
      if found == null {
        var entry := cache[next];
        next := (next + 1) % MONTGOMERY_CACHE;
        Fill(entry, modulus);
        found := entry;
      }
    }

    /** left * right mod modulus: two Montgomery passes for an odd modulus, the long way for an even one. The answer
        does not depend on what the cache held. */
    method MultiplyMod(out: BigNum, left: BigNum, right: BigNum, modulus: BigNum) returns (ok: bool)
      requires Valid() && Outside(out) && Outside(left) && Outside(right) && Outside(modulus)
      requires out.Padded() && left.Valid() && right.Valid() && modulus.Valid()
      requires out != modulus && out.limb != modulus.limb && 0 < modulus.count <= MAX_LIMBS
      modifies Repr, out, out.limb
      ensures Valid() && 0 < modulus.Value() && out.Padded()
      ensures ok <==> modulus.limb[0] % 2 == 1 || old(left.count + right.count) <= 2 * MAX_LIMBS
      ensures ok ==> out.Valid() && out.Value() == old(left.Value() * right.Value()) % modulus.Value()
    {
      ValTop(modulus.limb[..modulus.count]);
      var entry := Prepare(modulus);
      if entry == null {
        ok := MultiplyModSlow(out, left, right, modulus);
      } else {
        MultiplyFast(out, left, right, modulus, entry);
        ok := true;
      }
    }
  }

  // ---- The product at full width -------------------------------------------

  lemma ValUpdate(s: seq<Word>, at: nat, digit: Word)
    requires at < |s|
    ensures Val(s[at := digit]) + s[at] * Weight(at) == Val(s) + digit * Weight(at)
  {
    var t := s[at := digit];
    ValSplit(s, at + 1);
    ValSplit(t, at + 1);
    assert t[at + 1..] == s[at + 1..];
    ValPrefix(s, at);
    ValPrefix(t, at);
    assert t[..at] == s[..at];
  }

  /** What the carry loop did to a slice it did to the whole, one power of the base further up. */
  lemma RowPlaced(d: seq<Word>, p: seq<Word>, x: seq<Word>, a: Word, i: nat, k: nat, carry: Word)
    requires i + k <= |d| == |p| && d[..i] == p[..i] && d[i + k..] == p[i + k..]
    requires Accumulated(d[i..], p[i..], x, a, k, carry)
    ensures Val(d) + carry * Weight(i + k) == Val(p) + (a * Weight(i)) * Val(x[..k])
  {
    ValSplit(d, i);
    ValSplit(p, i);
    ValSplit(d[i..], k);
    ValSplit(p[i..], k);
    assert d[i..][k..] == d[i + k..] && p[i..][k..] == p[i + k..];
    PowAdd(BASE, i, k);
    PlacedTerms(Weight(i), Weight(k), Val(d[i..][..k]), Val(p[i..][..k]), Val(d[i + k..]), a, Val(x[..k]), carry,
                Val(d[i..]), Val(p[i..]), Weight(i + k));
  }

  lemma PlacedTerms(w: int, v: int, d: int, p: int, top: int, a: int, x: int, carry: int, whole: int, before: int,
                    u: int)
    requires d + carry * v == p + a * x && whole == d + v * top && before == p + v * top && u == w * v
    ensures w * whole + carry * u == w * before + (a * w) * x
  {
    calc {
      w * whole + carry * u;
      w * (d + carry * v) + w * (v * top);
      w * (p + a * x) + w * (v * top);
      w * before + (a * w) * x;
    }
  }

  lemma CarryStep(s: seq<Word>, at: nat, carry: Word, low: Word, high: Word)
    requires at < |s| && s[at] as int + carry == low + BASE * high
    ensures Val(s[at := low]) + high * Weight(at + 1) == Val(s) + carry * Weight(at)
  {
    ValUpdate(s, at, low);
    CarryTerms(s[at], carry, low, high, Weight(at));
    assert Weight(at + 1) == BASE * Weight(at);
  }

  lemma CarryTerms(digit: int, carry: int, low: int, high: int, w: int)
    requires digit + carry == low + BASE * high
    ensures digit * w + carry * w == low * w + high * (BASE * w)
  {
    assert digit * w + carry * w == (digit + carry) * w;
    assert (low + BASE * high) * w == low * w + high * (BASE * w);
  }

  /** The carry left by a row travels up until it is spent, which happens before the product's last limb. */
  method SpreadCarry(product: array<Word>, start: nat, count: nat, first: Word)
    requires start <= count <= product.Length
    requires Val(product[..count]) + first * Weight(start) < Weight(count)
    modifies product
    ensures Val(product[..count]) == old(Val(product[..count])) + first * Weight(start)
    ensures forall i :: count <= i < product.Length ==> product[i] == old(product[i])
  {
    ghost var total := Val(product[..count]) + first * Weight(start);
    var at := start;
    var carry: Word := first;
    while carry != 0 && at < count
      invariant start <= at <= count
      invariant Val(product[..count]) + carry * Weight(at) == total
      invariant forall i :: count <= i < product.Length ==> product[i] == old(product[i])
    {
      var value: DWord := product[at] as int + carry;
      var low: Word, high: Word := value % BASE, value / BASE;
      ghost var s := product[..count];
      CarryStep(s, at, carry, low, high);
      product[at] := low;
      assert product[..count] == s[at := low];
      carry := high;
      at := at + 1;
    }
    if carry != 0 {
      MulMono(1, Weight(count), carry, Weight(count));
    }
  }

  lemma RowSum(i: nat, left: seq<Word>, right: int)
    requires i < |left|
    ensures Val(left[..i + 1]) * right == Val(left[..i]) * right + (left[i] * Weight(i)) * right
  {
    ValPrefix(left, i);
    SumTimes(Val(left[..i]), left[i] * Weight(i), right);
  }

  lemma SumTimes(a: int, b: int, c: int)
    ensures (a + b) * c == a * c + b * c
  {
  }

  lemma RowFits(i: nat, left: seq<Word>, right: seq<Word>)
    requires i <= |left|
    ensures Val(left[..i]) * Val(right) < Weight(|left| + |right|)
  {
    ValBound(left[..i]);
    ValBound(right);
    PowMono(BASE, i, |left|);
    PowAdd(BASE, |left|, |right|);
    BelowProduct(Val(left[..i]), Weight(|left|), Val(right), Weight(|right|));
  }

  lemma BelowProduct(a: int, c: int, b: int, d: int)
    requires 0 <= a < c && 0 <= b < d
    ensures a * b < c * d
  {
    MulMono(a, b, c - 1, d - 1);
    assert (c - 1) * (d - 1) == c * d - c - d + 1;
  }

  lemma InnerSlice(s: seq<Word>, i: nat, k: nat, count: nat)
    requires i + k <= count <= |s|
    ensures s[..count][i..][..k] == s[i..][..k]
  {
  }

  /** One row: product := product + a * right * 2^(32 i), with room for it. */
  method Row(product: array<Word>, i: nat, a: Word, right: BigNum, count: nat)
    requires right.Valid() && right.limb != product && i + right.count <= count <= product.Length
    requires Val(product[..count]) + (a * Weight(i)) * right.Value() < Weight(count)
    modifies product
    ensures Val(product[..count]) == old(Val(product[..count])) + (a * Weight(i)) * right.Value()
  {
    ghost var full, k := product[..], right.count;
    ghost var p, y := full[..count], right.limb[..k];
    assert p == product[..count] && full[i..] == product[i..];
    var carry := AccumulateLimbs(product, i, a, right, right.count);
    ghost var after := product[..];
    ghost var d := after[..count];
    assert d == product[..count] && after[i..] == product[i..];
    InnerSlice(full, i, k, count);
    InnerSlice(after, i, k, count);
    assert right.limb[..][..k] == y[..k];
    RowPlaced(d, p, y, a, i, k, carry);
    assert y[..k] == y;
    SpreadCarry(product, i + right.count, count, carry);
  }

  method Schoolbook(product: array<Word>, left: BigNum, right: BigNum, count: nat)
    requires left.Valid() && right.Valid() && left.limb != product && right.limb != product
    requires count == left.count + right.count <= product.Length
    requires forall i :: 0 <= i < count ==> product[i] == 0
    modifies product
    ensures Val(product[..count]) == left.Value() * right.Value()
  {
    ghost var x, y := left.limb[..left.count], right.limb[..right.count];
    ValZero(product[..count]);
    for i := 0 to left.count
      invariant left.limb[..left.count] == x && right.limb[..right.count] == y
      invariant Val(product[..count]) == Val(x[..i]) * Val(y)
    {
      RowSum(i, x, Val(y));
      RowFits(i + 1, x, y);
      Row(product, i, left.limb[i], right, count);
    }
    assert x[..left.count] == x;
  }

  /** The product at full width, in a buffer of its own. */
  method FullProduct(left: BigNum, right: BigNum, count: nat) returns (product: array<Word>)
    requires left.Valid() && right.Valid() && count == left.count + right.count <= 2 * MAX_LIMBS
    ensures fresh(product) && product.Length == 2 * MAX_LIMBS
    ensures Val(product[..count]) == left.Value() * right.Value()
  {
    hide Val;
    product := new Word[2 * MAX_LIMBS];
    for at := 0 to count
      modifies product
      invariant forall i :: 0 <= i < at ==> product[i] == 0
    {
      product[at] := 0;
    }
    Schoolbook(product, left, right, count);
  }

  /** left * right mod modulus by the full product and a long division; refused when the product has no room. */
  method MultiplyModSlow(out: BigNum, left: BigNum, right: BigNum, modulus: BigNum) returns (ok: bool)
    requires out.Padded() && left.Valid() && right.Valid() && modulus.Valid() && out != modulus &&
             out.limb != modulus.limb
    requires 0 < modulus.count <= MAX_LIMBS
    modifies out, out.limb
    ensures ok <==> old(left.count + right.count) <= 2 * MAX_LIMBS
    ensures 0 < modulus.Value()
    ensures ok ==> out.Valid() && out.Value() == old(left.Value() * right.Value()) % modulus.Value()
    ensures !ok ==> out.Padded() && unchanged(out) && unchanged(out.limb)
  {
    hide Val;
    ValTop(modulus.limb[..modulus.count]);
    var count := left.count + right.count;
    if count > 2 * MAX_LIMBS {
      return false;
    }
    var product := FullProduct(left, right, count);
    ReduceWide(product, count, modulus, out);
    return true;
  }

  /** The operand itself when it is already inside the modulus, a reduced copy otherwise. */
  method Operand(value: BigNum, modulus: BigNum) returns (operand: BigNum)
    requires value.Valid() && modulus.Valid() && 0 < modulus.count <= MAX_LIMBS && 0 < modulus.Value()
    ensures operand.Valid() && operand.Value() == value.Value() % modulus.Value()
    ensures operand.count <= modulus.count
    ensures operand == value || (fresh(operand) && fresh(operand.limb))
  {
    operand := value;
    var order := Compare(value, modulus);
    if order >= 0 {
      operand := new BigNum();
      operand.CopyFrom(value);
      Reduce(operand, modulus);
    } else {
      DivModUnique(value.Value(), modulus.Value(), 0, value.Value());
    }
    RightCount(operand, modulus);
  }

  /** The odd modulus: both operands brought inside it, and two Montgomery passes with the entry's constants. */
  method MultiplyFast(out: BigNum, left: BigNum, right: BigNum, modulus: BigNum, entry: Entry)
    requires out.Padded() && left.Valid() && right.Valid() && modulus.Valid() && 0 < modulus.Value()
    requires out != modulus && out.limb != modulus.limb && 0 < modulus.count <= MAX_LIMBS
    requires entry.Right() && out !in entry.Repr && out.limb !in entry.Repr
    requires entry.modulus.Value() == modulus.Value() && entry.modulus.count == modulus.count
    requires entry.modulus.limb[0] == modulus.limb[0]
    modifies out, out.limb
    ensures out.Valid() && out.Value() == old(left.Value() * right.Value()) % modulus.Value()
  {
    hide BigNum.Padded, Congruent, Pow;
    ghost var x, y := left.Value(), right.Value();
    var a := Operand(left, modulus);
    var b := Operand(right, modulus);
    ghost var p := TwoPasses(out, a, b, modulus, entry);
    OddLimb(modulus);
    BackFromMontgomery(x, y, p, out.Value(), entry.rSquared.Value(), modulus.count, modulus.Value());
  }

  method TwoPasses(out: BigNum, a: BigNum, b: BigNum, modulus: BigNum, entry: Entry) returns (ghost p: int)
    requires out.Padded() && a.Valid() && b.Valid() && modulus.Valid() && 0 < modulus.Value()
    requires out != modulus && out.limb != modulus.limb && 0 < modulus.count <= MAX_LIMBS
    requires a.count <= modulus.count && b.Value() <= modulus.Value()
    requires entry.Right() && out !in entry.Repr && out.limb !in entry.Repr
    requires entry.modulus.Value() == modulus.Value() && entry.modulus.limb[0] == modulus.limb[0]
    modifies out, out.limb
    ensures out.Valid() && out.Value() < modulus.Value()
    ensures Congruent(p * Weight(modulus.count), old(a.Value() * b.Value()), modulus.Value())
    ensures Congruent(out.Value() * Weight(modulus.count), p * entry.rSquared.Value(), modulus.Value())
  {
    var product := new BigNum();
    MontgomeryMultiply(product, a, b, modulus, entry.inverse);
    p := product.Value();
    RightCount(product, modulus);
    MontgomeryMultiply(out, product, entry.rSquared, modulus, entry.inverse);
  }

  /** Two passes cancel: (a b / R) * R^2 / R = a b, because a power of two may be cancelled modulo an odd number. */
  lemma BackFromMontgomery(x: nat, y: nat, p: int, out: int, square: int, k: nat, n: int)
    requires 0 < n && n % 2 == 1 && 0 <= out < n
    requires Congruent(p * Weight(k), (x % n) * (y % n), n)
    requires Congruent(out * Weight(k), p * square, n)
    requires Congruent(square, Pow(2, 64 * k), n)
    ensures out == (x * y) % n
  {
    hide Congruent, Pow, Weight;
    var z := (x % n) * (y % n);
    PassesCancel(z, p, out, square, k, n);
    CongruentMod(x, n);
    CongruentMod(y, n);
    CongruentMul(x % n, x, y % n, y, n);
    CongruentTrans(out, z, x * y, n);
    CongruentSym(out, x * y, n);
    CongruentResidue(x * y, out, n);
  }

  lemma PassesCancel(z: int, p: int, out: int, square: int, k: nat, n: int)
    requires 0 < n && n % 2 == 1
    requires Congruent(p * Weight(k), z, n) && Congruent(out * Weight(k), p * square, n)
    requires Congruent(square, Pow(2, 64 * k), n)
    ensures Congruent(out, z, n)
  {
    hide Congruent, Pow, Weight;
    var w := Weight(k);
    TwoWeights(k);
    CongruentScale(w, out * w, p * square, n);
    CongruentScale(square, p * w, z, n);
    CongruentScale(z, square, w * w, n);
    Reordered(w, out, p, square, z);
    CongruentTrans(out * (w * w), square * (p * w), square * z, n);
    CongruentTrans(out * (w * w), z * square, z * (w * w), n);
    CongruentCancelPow2(out, z, 64 * k, n);
  }

  lemma Reordered(w: int, out: int, p: int, square: int, z: int)
    ensures w * (out * w) == out * (w * w) && w * (p * square) == square * (p * w) && square * z == z * square
  {
  }

  lemma TwoWeights(k: nat)
    ensures Weight(k) * Weight(k) == Pow(2, 64 * k)
  {
    PowerOf32();
    PowMul(2, 32, k);
    PowAdd(2, 32 * k, 32 * k);
  }

  /** An odd number is told by its lowest limb. */
  lemma OddLimb(modulus: BigNum)
    requires modulus.Valid() && modulus.count > 0
    ensures modulus.limb[0] % 2 == modulus.Value() % 2
  {
    ValHead(modulus.limb[..modulus.count]);
    LowParity(modulus.limb[0], Val(modulus.limb[..modulus.count][1..]));
  }

  lemma LowParity(low: int, high: int)
    ensures (low + BASE * high) % 2 == low % 2
  {
    assert BASE * high == 2 * (0x8000_0000 * high);
  }

  // ---- Powers and inverses -------------------------------------------------

  /** What square-and-multiply has after reading the bits of the exponent down to one position. */
  lemma SquareAndMultiply(v: nat, x: nat, bit: int, n: int)
    requires 0 < n && 0 <= bit <= 1
    ensures var s := ((Pow(v, x) % n) * (Pow(v, x) % n)) % n;
            Pow(v, 2 * x + bit) % n == (if bit == 1 then (s * (v % n)) % n else s)
  {
    var p := Pow(v, x);
    CongruentMod(p, n);
    CongruentMul(p % n, p, p % n, p, n);
    CongruentResidue((p % n) * (p % n), p * p, n);
    PowAdd(v, x, x);
    if bit == 1 {
      CongruentMod(p * p, n);
      CongruentMod(v, n);
      CongruentMul((p * p) % n, p * p, v % n, v, n);
      CongruentResidue(((p * p) % n) * (v % n), (p * p) * v, n);
      assert (p * p) * v == v * (p * p);
      assert Pow(v, 2 * x + 1) == v * Pow(v, 2 * x);
    }
  }

  /** Working copies a power is computed with, sharing nothing with the cache. */
  ghost predicate Working(engine: Engine, result: BigNum, square: BigNum, modulus: BigNum)
    reads engine, engine.Repr, result, result.limb, square, square.limb, modulus, modulus.limb
  {
    engine.Valid() && engine.Outside(result) && engine.Outside(square) && engine.Outside(modulus) &&
    result.Valid() && square.Valid() && modulus.Valid() && 0 < modulus.count <= MAX_LIMBS && 0 < modulus.Value() &&
    result != square && result.limb != square.limb && result != modulus && result.limb != modulus.limb
  }

  /** One bit of the exponent: square, and multiply when the bit is set. */
  method PowerStep(engine: Engine, result: BigNum, square: BigNum, modulus: BigNum, bit: int, ghost v: nat,
                   ghost x: nat)
    requires Working(engine, result, square, modulus) && 0 <= bit <= 1
    requires result.Value() == Pow(v, x) % modulus.Value() && square.Value() == v % modulus.Value()
    requires result.count <= modulus.count && square.count <= modulus.count
    modifies engine.Repr, result, result.limb
    ensures Working(engine, result, square, modulus) && result.count <= modulus.count
    ensures result.Value() == Pow(v, 2 * x + bit) % modulus.Value()
  {
    SquareAndMultiply(v, x, bit, modulus.Value());
    var ok := engine.MultiplyMod(result, result, result, modulus);
    assert ok;
    RightCount(result, modulus);
    if bit == 1 {
      ok := engine.MultiplyMod(result, result, square, modulus);
      assert ok;
      RightCount(result, modulus);
    }
  }

  /** The highest set bit among the low 32, or 0. */
  method HighestBit(exponent: Word) returns (highest: nat)
    ensures highest < 32 && Shr(exponent, highest) == (if exponent == 0 then 0 else 1)
    ensures exponent == 0 ==> highest == 0
  {
    highest := 31;
    PowerOf32();
    ShrBelow(exponent, 32);
    while highest > 0 && Shr(exponent, highest) % 2 == 0
      invariant highest < 32 && Shr(exponent, highest + 1) == 0
    {
      highest := highest - 1;
    }
    assert Shr(exponent, highest) == 2 * Shr(exponent, highest + 1) + Shr(exponent, highest) % 2;
    assert Shr(exponent, 0) == exponent;
    if exponent == 0 {
      ShrZero(highest);
    }
  }

  /** What modexp answers. With no bits to read it never reduces the one it starts from. */
  function PowerAnswer(v: nat, e: nat, n: int): int
    requires 0 < n
  {
    if e == 0 then 1 else Pow(v, e) % n
  }

  /** The answer is the power modulo n, except for exponent zero and modulus one. */
  lemma PowerAnswerExact(v: nat, e: nat, n: int)
    requires 0 < n
    ensures PowerAnswer(v, e, n) == Pow(v, e) % n <==> !(n == 1 && e == 0)
  {
    if e == 0 && n > 1 {
      DivModUnique(1, n, 0, 1);
    }
  }

  method ModexpFirst(engine: Engine, result: BigNum, square: BigNum, modulus: BigNum, bit: int, ghost v: nat)
    requires Working(engine, result, square, modulus) && 0 <= bit <= 1
    requires result.Value() == 1 && square.Value() == v % modulus.Value() && square.count <= modulus.count
    modifies engine.Repr, result, result.limb
    ensures Working(engine, result, square, modulus) && result.count <= modulus.count
    ensures result.Value() == PowerAnswer(v, bit, modulus.Value())
  {
    OneLimb(result, modulus);
    if bit == 1 {
      var ok := engine.MultiplyMod(result, result, square, modulus);
      assert ok;
      RightCount(result, modulus);
      PowOne(v);
      CongruentMod(v, modulus.Value());
      CongruentResidue(v % modulus.Value(), v, modulus.Value());
    }
  }

  lemma OneLimb(result: BigNum, modulus: BigNum)
    requires result.Valid() && result.Value() == 1 && modulus.count > 0
    ensures result.count <= modulus.count
  {
    if result.count > 1 {
      ValTop(result.limb[..result.count]);
      PowMono(BASE, 1, result.count - 1);
      PowOne(BASE);
    }
  }

  /** base^exponent mod modulus for an ordinary exponent; refused only for a modulus of zero. */
  method Modexp(engine: Engine, out: BigNum, base: BigNum, exponent: Word, modulus: BigNum) returns (ok: bool)
    requires engine.Valid() && engine.Outside(out) && engine.Outside(base) && engine.Outside(modulus)
    requires out.Padded() && base.Valid() && modulus.Valid() && modulus.count <= MAX_LIMBS
    modifies engine.Repr, out, out.limb
    ensures engine.Valid()
    ensures ok <==> old(modulus.count) > 0
    ensures ok ==> 0 < old(modulus.Value()) && out.Valid()
    ensures ok ==> out.Value() == PowerAnswer(old(base.Value()), exponent, old(modulus.Value()))
  {
    hide BigNum.Padded, BigNum.Value, Congruent, Engine.Valid, Entry.Right, Entry.Shaped, Entry.Valid, Pow,
         PowerAnswer, Shr, Val, Weight, Working;
    if modulus.count == 0 {
      return false;
    }
    ghost var v := base.Value();
    var result, square := Start(base, modulus);
    var highest := HighestBit(exponent);
    ModexpFirst(engine, result, square, modulus, Shr(exponent, highest) % 2, v);
    ModexpRest(engine, result, square, modulus, exponent, highest, v);
    out.CopyFrom(result);
    return true;
  }

  /** The bits below the highest one. */
  method ModexpRest(engine: Engine, result: BigNum, square: BigNum, modulus: BigNum, exponent: Word, highest: nat,
                    ghost v: nat)
    requires Working(engine, result, square, modulus) && result.count <= modulus.count && square.count <= modulus.count
    requires square.Value() == v % modulus.Value() && (exponent == 0 ==> highest == 0)
    requires Shr(exponent, highest) == (if exponent == 0 then 0 else 1)
    requires result.Value() == PowerAnswer(v, Shr(exponent, highest), modulus.Value())
    modifies engine.Repr, result, result.limb
    ensures engine.Valid() && result.Valid() && result.Value() == PowerAnswer(v, exponent, modulus.Value())
  {
    hide BigNum.Value;
    ghost var n := modulus.Value();
    for at := highest downto 0
      invariant Working(engine, result, square, modulus) && result.count <= modulus.count
      invariant modulus.Value() == n && square.Value() == v % n && square.count <= modulus.count
      invariant result.Value() == PowerAnswer(v, Shr(exponent, at), n)
      invariant exponent != 0 ==> Shr(exponent, at) != 0
    {
      ShrStep(exponent, at);
      PowerStep(engine, result, square, modulus, Shr(exponent, at) % 2, v, Shr(exponent, at + 1));
    }
    assert Shr(exponent, 0) == exponent;
  }

  /** result = 1, square = the base brought inside the modulus. */
  method Start(base: BigNum, modulus: BigNum) returns (result: BigNum, square: BigNum)
    requires base.Valid() && modulus.Valid() && 0 < modulus.count <= MAX_LIMBS
    ensures fresh(result) && fresh(result.limb) && fresh(square) && fresh(square.limb)
    ensures result.Valid() && square.Valid() && result != square && result.limb != square.limb && 0 < modulus.Value()
    ensures result.Value() == 1 && square.Value() == base.Value() % modulus.Value() && square.count <= modulus.count
  {
    square := new BigNum();
    square.CopyFrom(base);
    result := new BigNum();
    result.Small(1);
    Reduce(square, modulus);
    RightCount(square, modulus);
  }

  /** Subtracting two from the low limb, which the source does without a borrow. */
  method MinusTwo(modulus: BigNum) returns (exponent: BigNum)
    requires modulus.Valid() && modulus.count > 0 && modulus.limb[0] >= 2
    ensures fresh(exponent) && fresh(exponent.limb) && exponent.Padded() && modulus.Value() >= 2
    ensures exponent.Value() == modulus.Value() - 2
  {
    exponent := new BigNum();
    exponent.CopyFrom(modulus);
    ghost var s := exponent.limb[..exponent.count];
    ValHead(s);
    exponent.limb[0] := exponent.limb[0] - 2;
    ghost var t := exponent.limb[..exponent.count];
    ValHead(t);
    assert t[1..] == s[1..];
  }

  /** value^(modulus-2) mod modulus. Refused for a modulus whose low limb is below two, since subtracting two there
      would need a borrow. */
  method Inverse(engine: Engine, out: BigNum, value: BigNum, modulus: BigNum) returns (ok: bool)
    requires engine.Valid() && engine.Outside(out) && engine.Outside(value) && engine.Outside(modulus)
    requires out.Padded() && value.Valid() && modulus.Valid() && modulus.count <= MAX_LIMBS
    modifies engine.Repr, out, out.limb
    ensures engine.Valid()
    ensures ok <==> old(modulus.count > 0 && modulus.limb[0] >= 2)
    ensures ok ==> 2 <= old(modulus.Value()) && out.Valid()
    ensures ok ==> out.Value() == Pow(old(value.Value()), old(modulus.Value()) - 2) % old(modulus.Value())
  {
    hide BigNum.Value, Congruent, Engine.Valid, Entry.Right, Entry.Shaped, Entry.Valid, Pow, Val, Weight;
    if modulus.count == 0 {
      return false;
    }
    if modulus.limb[0] < 2 {
      return false;
    }
    ghost var v, n := value.Value(), modulus.Value();
    var exponent := MinusTwo(modulus);
    var result, square := Start(value, modulus);
    OneLimb(result, modulus);
    InverseLoop(engine, result, square, modulus, exponent, v);
    out.CopyFrom(result);
    return true;
  }

  method InverseLoop(engine: Engine, result: BigNum, square: BigNum, modulus: BigNum, exponent: BigNum, ghost v: nat)
    requires Working(engine, result, square, modulus) && result.count <= modulus.count && square.count <= modulus.count
    requires exponent.Padded() && engine.Outside(exponent) && exponent != result && exponent.limb != result.limb
    requires result.Value() == 1 && square.Value() == v % modulus.Value() && 2 <= modulus.Value()
    modifies engine.Repr, result, result.limb
    ensures engine.Valid() && result.Valid()
    ensures result.Value() == Pow(v, exponent.Value()) % modulus.Value()
  {
    hide BigNum.Padded, BigNum.Value, Congruent, Engine.Valid, Entry.Right, Entry.Shaped, Entry.Valid, Val, Weight;
    ghost var n, e := modulus.Value(), exponent.Value();
    var top := BitLength(exponent);
    DivModUnique(1, n, 0, 1);
    for at := top downto 0
      invariant Working(engine, result, square, modulus) && result.count <= modulus.count
      invariant modulus.Value() == n && square.Value() == v % n && square.count <= modulus.count
      invariant exponent.Padded() && exponent.Value() == e
      invariant result.Value() == Pow(v, Shr(e, at)) % n
    {
      var bit := BitOf(exponent, at);
      ShrStep(e, at);
      PowerStep(engine, result, square, modulus, bit, v, Shr(e, at + 1));
    }
    assert Shr(e, 0) == e;
  }

  /** For a prime that does not divide the value, what Inverse answers is the inverse. */
  lemma InverseInverts(value: nat, p: nat, out: nat)
    requires Prime(p) && value % p != 0 && out == Pow(value, p - 2) % p
    ensures (out * value) % p == 1
  {
    Fermat(value, p);
    CongruentMod(Pow(value, p - 2), p);
    CongruentScale(value, out, Pow(value, p - 2), p);
    assert value * out == out * value && value * Pow(value, p - 2) == Pow(value, p - 1);
    CongruentTrans(out * value, Pow(value, p - 1), 1, p);
    CongruentResidue(out * value, 1, p);
  }

  // ---- Sums and differences ------------------------------------------------

  /** The low `at` limbs of d are the sum of those of x and y, less a carry into the limb above. */
  ghost predicate Added(d: seq<Word>, x: seq<Word>, y: seq<Word>, at: nat, carry: int) {
    at <= |d| && at <= |x| && at <= |y| && 0 <= carry <= 1 &&
    Val(d[..at]) == Val(x[..at]) + Val(y[..at]) - if carry == 1 then Weight(at) else 0
  }

  lemma AddTerms(x: int, y: int, carry: int, out: int, w: int)
    requires 0 <= carry <= 1 && 0 <= out <= 1
    ensures (x + y + carry - out * BASE) * w
         == x * w + y * w + (if carry == 1 then w else 0) - if out == 1 then BASE * w else 0
  {
  }

  lemma AddStep(d: seq<Word>, x: seq<Word>, y: seq<Word>, at: nat, carry: int, digit: Word, out: int)
    requires Added(d, x, y, at, carry) && at < |d| && at < |x| && at < |y|
    requires 0 <= out <= 1 && digit as int == x[at] as int + y[at] as int + carry - out * BASE
    ensures Added(d[at := digit], x, y, at + 1, out)
  {
    var e := d[at := digit];
    assert e[..at] == d[..at];
    ValPrefix(e, at);
    ValPrefix(x, at);
    ValPrefix(y, at);
    AddTerms(x[at], y[at], carry, out, Weight(at));
    assert Weight(at + 1) == BASE * Weight(at);
  }

  method AddLimbs(sum: array<Word>, left: BigNum, right: BigNum, count: nat) returns (carry: Word)
    requires left.Padded() && right.Padded() && sum.Length == CAPACITY && sum != left.limb && sum != right.limb
    requires count <= CAPACITY && forall i :: 0 <= i < CAPACITY ==> sum[i] == 0
    modifies sum
    ensures Added(sum[..], left.limb[..], right.limb[..], count, carry)
    ensures forall i :: count <= i < CAPACITY ==> sum[i] == 0
  {
    ghost var x, y := left.limb[..], right.limb[..];
    carry := 0;
    for at := 0 to count
      invariant left.limb[..] == x && right.limb[..] == y
      invariant forall i :: at <= i < CAPACITY ==> sum[i] == 0
      invariant Added(sum[..], x, y, at, carry)
    {
      var value: DWord := (if at < left.count then left.limb[at] else 0) as int +
                          (if at < right.count then right.limb[at] else 0) as int + carry;
      var digit: Word := value % BASE;
      ghost var d := sum[..];
      AddStep(d, x, y, at, carry, digit, value / BASE);
      sum[at] := digit;
      assert sum[..] == d[at := digit];
      carry := value / BASE;
    }
  }

  /** The carry out of the top becomes one more limb, or is lost when there is none. */
  lemma SumResult(d: seq<Word>, x: seq<Word>, y: seq<Word>, n: nat, carry: Word, e: seq<Word>)
    requires Added(d, x, y, n, carry) && n <= |d|
    requires e == if carry != 0 && n < |d| then d[..n] + [carry] else d[..n]
    ensures Val(e) == Val(x[..n]) + Val(y[..n]) - if carry != 0 && n == |d| then Weight(|d|) else 0
    ensures Val(e) < Weight(|d|)
  {
    ValBound(e);
    PowMono(BASE, |e|, |d|);
    if carry != 0 && n < |d| {
      assert e[..n] == d[..n];
      ValPrefix(e, n);
      assert e[..n + 1] == e;
    }
  }

  /** A sum in a fixed number of limbs: the carry out of the last is lost. */
  function Kept(total: int, w: int): int {
    if total < w then total else total - w
  }

  method AppendCarry(sum: BigNum, count: nat, carry: Word)
    requires sum.limb.Length == CAPACITY && count <= CAPACITY && forall i :: count <= i < CAPACITY ==> sum.limb[i] == 0
    modifies sum, sum.limb
    ensures sum.Padded()
    ensures sum.limb[..sum.count] == old(if carry != 0 && count < sum.limb.Length then sum.limb[..count] + [carry]
            else sum.limb[..count])
  {
    sum.count := count;
    if carry != 0 && sum.count < CAPACITY {
      sum.limb[sum.count] := carry;
      sum.count := sum.count + 1;
    }
  }

  /** left + right with the carry kept while there is a limb to keep it in. */
  method Sum(left: BigNum, right: BigNum) returns (sum: BigNum)
    requires left.Valid() && right.Valid()
    ensures fresh(sum) && fresh(sum.limb) && sum.Valid()
    ensures sum.Value() == Kept(left.Value() + right.Value(), Weight(left.limb.Length))
  {
    hide Val, Weight;
    sum := new BigNum();
    var count := if left.count > right.count then left.count else right.count;
    left.ValueUpTo(count);
    right.ValueUpTo(count);
    ghost var x, y := left.limb[..], right.limb[..];
    assert x[..count] == left.limb[..count] && y[..count] == right.limb[..count];
    var carry := AddLimbs(sum.limb, left, right, count);
    ghost var d := sum.limb[..];
    AppendCarry(sum, count, carry);
    SumResult(d, x, y, count, carry, sum.limb[..sum.count]);
    sum.Trim();
  }

  /** (left + right) mod modulus. A carry out of the last limb of headroom would be lost. */
  method AddMod(out: BigNum, left: BigNum, right: BigNum, modulus: BigNum)
    requires out.Padded() && left.Valid() && right.Valid() && modulus.Valid() && 0 < modulus.count <= MAX_LIMBS
    modifies out, out.limb
    ensures out.Valid() && 0 < old(modulus.Value())
    ensures out.Value() == old(Kept(left.Value() + right.Value(), Weight(left.limb.Length))) % old(modulus.Value())
    ensures old(left.Value() + right.Value()) < Weight(left.limb.Length) ==>
              out.Value() == old(left.Value() + right.Value()) % old(modulus.Value())
  {
    var sum := Sum(left, right);
    Reduce(sum, modulus);
    out.CopyFrom(sum);
  }

  /** (left - right) mod modulus, where one modulus added is enough to avoid a borrow. */
  method SubMod(out: BigNum, left: BigNum, right: BigNum, modulus: BigNum)
    requires out.Padded() && left.Valid() && right.Valid() && modulus.Valid() && 0 < modulus.count <= MAX_LIMBS
    requires left.count <= MAX_LIMBS && right.Value() <= left.Value() + modulus.Value()
    modifies out, out.limb
    ensures out.Valid() && 0 < old(modulus.Value())
    ensures out.Value() == (old(left.Value()) - old(right.Value())) % old(modulus.Value())
  {
    var value := Difference(left, right, modulus);
    Reduce(value, modulus);
    out.CopyFrom(value);
  }

  method Raised(left: BigNum, right: BigNum, modulus: BigNum) returns (value: BigNum)
    requires left.Valid() && right.Valid() && modulus.Valid() && 0 < modulus.count <= MAX_LIMBS
    requires left.count <= MAX_LIMBS
    ensures fresh(value) && fresh(value.limb) && value.Valid()
    ensures value.Value() == left.Value() + if left.Value() < right.Value() then modulus.Value() else 0
  {
    value := new BigNum();
    value.CopyFrom(left);
    var order := Compare(value, right);
    if order < 0 {
      SumOfReduced(left.limb[..left.count], modulus.limb[..modulus.count], left.limb.Length);
      value := Sum(value, modulus);
    }
  }

  method Difference(left: BigNum, right: BigNum, modulus: BigNum) returns (value: BigNum)
    requires left.Valid() && right.Valid() && modulus.Valid() && 0 < modulus.count <= MAX_LIMBS
    requires left.count <= MAX_LIMBS && right.Value() <= left.Value() + modulus.Value()
    ensures fresh(value) && fresh(value.limb) && value.Valid() && 0 < modulus.Value()
    ensures value.Value() % modulus.Value() == (left.Value() - right.Value()) % modulus.Value()
  {
    ValTop(modulus.limb[..modulus.count]);
    value := Raised(left, right, modulus);
    Subtract(value, right);
    CongruentFrom(value.Value(), left.Value() - right.Value(), modulus.Value(), if left.Value() < right.Value() then 1
        else 0);
    CongruentResidue(value.Value(), left.Value() - right.Value(), modulus.Value());
  }

  lemma SumOfReduced(x: seq<Word>, y: seq<Word>, capacity: nat)
    requires |x| < capacity && |y| < capacity
    ensures Val(x) + Val(y) < Weight(capacity)
  {
    ValBound(x);
    ValBound(y);
    PowMono(BASE, |x|, capacity - 1);
    PowMono(BASE, |y|, capacity - 1);
    assert Weight(capacity) == BASE * Weight(capacity - 1);
  }
}
